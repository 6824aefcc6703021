/**
 The imperative side of EventsProcessor: one worker's methods on the offset and failure
 rows, proved against the transactions of Progress and against the retry rule below.
 */
module EventsProcessor {
  import opened Wrappers
  import opened Texts
  import opened Rows
  import opened EventStore
  import opened ChangeFeed
  import opened Progress

  datatype EventResult = ResultProcessed | ResultSkipped | ResultBlocked

  /** How the environment answers one event: the handlers at each attempt, and when a stop is requested. */
  datatype Answers = Answers(outcome: nat -> Outcome, stopping: nat -> bool)

  datatype Retried = Retried(position: Position, result: EventResult)

  /**
   processEventWithRetries after n attempts of this pass, as a function: attempt until
   something other than a thrown error decides, the limit is reached, or a stop.
   */
  function Retry(
    p: Position, e: Event, failure: Option<FailureRow>, attemptCount: nat, n: nat, answers: Answers, maxAttempts: nat): Retried
    decreases maxAttempts - n
  {
    if answers.stopping(n) || n >= maxAttempts then Retried(p, ResultBlocked)
    else
      var r := Attempt(p, e, failure, answers.outcome(n));
      match r.verdict
      case Processed => Retried(r.position, ResultProcessed)
      case Skipped => Retried(r.position, ResultSkipped)
      case Failed(refused) =>
        var q := Record(r.position, e, refused, attemptCount + 1);
        if refused then Retried(q, ResultSkipped)
        else Retry(q, e, FailureOf(q, e), attemptCount + 1, n + 1, answers, maxAttempts)
  }

  /** processEventWithRetries. */
  function Handle(p: Position, e: Event, answers: Answers, maxAttempts: nat): Retried {
    var failure := FailureOf(p, e);
    if failure.Some? && failure.value.state == Blocked then Retried(p, ResultBlocked)
    else
      Retry(
        p, e, failure, if failure.Some? && failure.value.state == Retrying then failure.value.attemptCount else 0,
        0, answers, maxAttempts)
  }

  class Processor {
    const maxAttempts: nat
    var offset: Option<nat>
    var failures: map<VersionKey, FailureRow>
    ghost var dispatched: seq<Event>
    ghost var quarantined: set<Event>

    constructor (maxAttempts: nat)
      ensures this.maxAttempts == maxAttempts && At() == Position(None, map[], [], {})
    {
      this.maxAttempts := maxAttempts;
      offset, failures := None, map[];
      dispatched, quarantined := [], {};
    }

    ghost function At(): Position
      reads this
    {
      Position(offset, failures, dispatched, quarantined)
    }

    /** The processing transaction: nothing is kept of it when it fails. */
    method ProcessEvent(e: Event, failure: Option<FailureRow>, outcome: Outcome) returns (verdict: Verdict)
      modifies this
      ensures Attempted(At(), verdict) == Attempt(old(At()), e, failure, outcome)
      ensures verdict == Skipped <==> old(offset).Some? && e.row.changeSequence <= old(offset).value
      ensures verdict == Processed <==> verdict != Skipped && outcome == Accepts
      ensures verdict.Failed? ==> At() == old(At()) && verdict.refused == outcome.Refuses?
      ensures verdict == Processed ==> SettlesFailures(old(failures), failures, e, failure)
      ensures verdict == Processed ==> offset == Some(e.row.changeSequence) && dispatched == old(dispatched) + [e]
      ensures verdict == Skipped ==> SkipsFailures(old(failures), failures, e, failure)
    {
      VerdictIsExact(At(), e, failure, outcome);
      if outcome.Accepts? && (offset.None? || offset.value < SequenceOf(e)) {
        NothingLeftBehind(At(), e, failure, outcome, KeyOfEvent(e));
      }
      if offset.Some? && offset.value >= SequenceOf(e) {
        if failure.Some? && failure.value.state != Quarantined && KeyOfEvent(e) in failures {
          failures := failures[KeyOfEvent(e) := failures[KeyOfEvent(e)].(state := Superseded)];
        }
        return Skipped;
      }
      if outcome.Throws? {
        return Failed(false);
      }
      if outcome.Refuses? {
        return Failed(true);
      }
      offset := Some(SequenceOf(e));
      dispatched := dispatched + [e];
      if failure.Some? {
        failures := failures[KeyOfEvent(e) := failure.value.(state := Resolved)];
      }
      failures := SupersedeOthers(failures, e);
      verdict := Processed;
    }

    /** recordEventFailure. */
    method RecordEventFailure(e: Event, refused: bool, attemptCount: nat) returns (failure: FailureRow)
      modifies this
      ensures At() == Record(old(At()), e, refused, attemptCount) && Some(failure) == FailureOf(At(), e)
      ensures failure == FailureRow(if refused then FailureState.Quarantined else FailureState.Retrying, attemptCount, e)
      ensures exists key :: IsVersion(key, e) && OnlyRowChanges(old(failures), failures, key) && failures[key] == failure
    {
      RecordIsExact(At(), e, refused, attemptCount);
      if refused {
        if offset.None? || offset.value < SequenceOf(e) {
          offset := Some(SequenceOf(e));
        }
        quarantined := quarantined + {e};
      }
      failure := FailureRow(if refused then Quarantined else Retrying, attemptCount, e);
      failures := failures[KeyOfEvent(e) := failure];
    }

    /** processEventWithRetries. */
    method ProcessEventWithRetries(e: Event, answers: Answers) returns (result: EventResult)
      modifies this
      ensures Retried(At(), result) == Handle(old(At()), e, answers, maxAttempts)
    {
      var failure := if KeyOfEvent(e) in failures then Some(failures[KeyOfEvent(e)]) else None;
      if failure.Some? && failure.value.state == Blocked {
        return ResultBlocked;
      }
      var attemptCount: nat := if failure.Some? && failure.value.state == Retrying then failure.value.attemptCount else 0;
      var attemptsThisPass: nat := 0;
      while !answers.stopping(attemptsThisPass) && attemptsThisPass < maxAttempts
        invariant attemptsThisPass <= maxAttempts
        invariant Retry(At(), e, failure, attemptCount, attemptsThisPass, answers, maxAttempts) ==
          Handle(old(At()), e, answers, maxAttempts)
        decreases maxAttempts - attemptsThisPass
      {
        var verdict := ProcessEvent(e, failure, answers.outcome(attemptsThisPass));
        if verdict == Processed {
          return ResultProcessed;
        }
        if verdict == Skipped {
          return ResultSkipped;
        }
        attemptCount := attemptCount + 1;
        attemptsThisPass := attemptsThisPass + 1;
        var saved := RecordEventFailure(e, verdict.refused, attemptCount);
        failure := Some(saved);
        if saved.state == Quarantined {
          return ResultSkipped;
        }
      }
      result := ResultBlocked;
    }

    /** markFailureSuperseded. */
    method MarkFailureSuperseded(key: VersionKey) returns (marked: bool)
      modifies this`failures
      ensures At() == Unblock(old(At()), key, Superseded)
      ensures marked <==> key in old(failures) && old(failures)[key].state == Blocked
      ensures marked ==> OnlyRowChanges(old(failures), failures, key)
      ensures marked ==>
        failures[key] == FailureRow(FailureState.Superseded, old(failures)[key].attemptCount, old(failures)[key].snapshot)
      ensures !marked ==> failures == old(failures)
    {
      marked := key in failures && failures[key].state == Blocked;
      if marked {
        failures := failures[key := failures[key].(state := Superseded)];
      }
    }

    /** The page loop of processOnceFromIndexerApi: one answer per event, and it stops at a blocked one. */
    method ProcessPage(items: seq<Event>, answers: seq<Answers>) returns (processedRows: nat, blocked: bool)
      requires |answers| == |items| && maxAttempts >= 1
      requires InOrder(At()) && Ascending(items, 0)
      modifies this
      ensures InOrder(At()) && Advances(old(At()), At())
      ensures |dispatched| == |old(dispatched)| + processedRows
      ensures forall i | |old(dispatched)| <= i < |dispatched| :: dispatched[i] in items
      ensures !blocked ==> forall i | 0 <= i < |items| :: SequenceOf(items[i]) <= Offset(At())
      ensures !blocked && BeginsBeyond(items, Offset(old(At()))) ==> forall i | 0 <= i < |items| :: Settled(At(), items[i])
      ensures !blocked ==> Offset(At()) == Offset(old(At())) || exists i :: 0 <= i < |items| && Offset(At()) == SequenceOf(items[i])
      ensures blocked ==> exists n :: StoppedAt(items, n, old(At()), At())
      ensures items == [] ==> !blocked && At() == old(At())
    {
      processedRows, blocked := 0, false;
      ghost var before := At();
      for n := 0 to |items|
        invariant InOrder(At()) && Advances(before, At()) && (n == 0 ==> At() == before)
        invariant |dispatched| == |before.dispatched| + processedRows
        invariant forall i | |before.dispatched| <= i < |dispatched| :: dispatched[i] in items
        invariant forall i | 0 <= i < n :: SequenceOf(items[i]) <= Offset(At())
        invariant BeginsBeyond(items, Offset(before)) ==> forall i | 0 <= i < n :: Settled(At(), items[i])
        invariant Offset(At()) == Offset(before) || exists i :: 0 <= i < n && Offset(At()) == SequenceOf(items[i])
      {
        ghost var here := At();
        var result := ProcessEventWithRetries(items[n], answers[n]);
        HandleDecides(here, items[n], answers[n], maxAttempts);
        if result == ResultBlocked {
          assert StoppedAt(items, n, before, At());
          return processedRows, true;
        }
        if result == ResultProcessed {
          processedRows := processedRows + 1;
        }
      }
    }
  }

  /** The page starts beyond the offset. */
  predicate BeginsBeyond(items: seq<Event>, offset: nat) {
    |items| > 0 ==> offset < SequenceOf(items[0])
  }

  /** The pass stopped at item n: earlier items are behind the offset, and nothing beyond them was settled. */
  ghost predicate StoppedAt(items: seq<Event>, n: nat, before: Position, p: Position) {
    && n < |items|
    && (forall i | 0 <= i < n :: SequenceOf(items[i]) <= Offset(p))
    && (Offset(p) == Offset(before) || exists i :: 0 <= i < n && Offset(p) == SequenceOf(items[i]))
  }

  // ---------------------------------------------------------------- what the retry rule decides

  /** Nothing but failure rows changed. */
  predicate OnlyFailuresDiffer(p: Position, q: Position) {
    q.offset == p.offset && q.dispatched == p.dispatched && q.quarantined == p.quarantined
  }

  /** A decided event is behind the offset, dispatched at most once; a blocked one has moved nothing. */
  ghost predicate Decides(p: Position, e: Event, r: Retried) {
    && InOrder(r.position) && Advances(p, r.position)
    && match r.result
       case ResultProcessed =>
         r.position.dispatched == p.dispatched + [e] && Offset(p) < SequenceOf(e) == Offset(r.position)
       case ResultSkipped =>
         && r.position.dispatched == p.dispatched && SequenceOf(e) <= Offset(r.position)
         && (Offset(r.position) == Offset(p) || (Offset(r.position) == SequenceOf(e) && e in r.position.quarantined))
       case ResultBlocked => OnlyFailuresDiffer(p, r.position)
  }

  lemma {:induction false} RetryDecides(
    p: Position, e: Event, failure: Option<FailureRow>, attemptCount: nat, n: nat, answers: Answers, maxAttempts: nat)
    requires InOrder(p) && SequenceOf(e) >= 1
    ensures Decides(p, e, Retry(p, e, failure, attemptCount, n, answers, maxAttempts))
    decreases maxAttempts - n
  {
    if !(answers.stopping(n) || n >= maxAttempts) {
      var r := Attempt(p, e, failure, answers.outcome(n));
      AttemptKeepsOrder(p, e, failure, answers.outcome(n));
      if r.verdict.Failed? {
        var q := Record(r.position, e, r.verdict.refused, attemptCount + 1);
        RecordKeepsOrder(r.position, e, r.verdict.refused, attemptCount + 1);
        if !r.verdict.refused {
          RetryDecides(q, e, FailureOf(q, e), attemptCount + 1, n + 1, answers, maxAttempts);
        }
      }
    }
  }

  lemma HandleDecides(p: Position, e: Event, answers: Answers, maxAttempts: nat)
    requires InOrder(p) && SequenceOf(e) >= 1
    ensures Decides(p, e, Handle(p, e, answers, maxAttempts))
  {
    var failure := FailureOf(p, e);
    RetryDecides(
      p, e, failure, if failure.Some? && failure.value.state == Retrying then failure.value.attemptCount else 0,
      0, answers, maxAttempts);
  }

  /** The first k attempts all throw, with no stop before or after them. */
  predicate ThrowsFirst(answers: Answers, n: nat, k: nat) {
    && (forall i | n <= i < n + k :: answers.outcome(i) == Throws)
    && (forall i | n <= i <= n + k :: !answers.stopping(i))
  }

  /**
   An event the offset has not passed is decided by its first answer that is no thrown
   error, if that comes within the attempts of the pass: accepted means processed,
   refused means quarantined with the number of attempts made.
   */
  lemma {:induction false} FirstAnswerDecides(
    p: Position, e: Event, failure: Option<FailureRow>, attemptCount: nat, n: nat, answers: Answers, maxAttempts: nat, k: nat)
    requires !Passed(p, e) && ThrowsFirst(answers, n, k) && n + k < maxAttempts && answers.outcome(n + k) != Throws
    ensures
      var r := Retry(p, e, failure, attemptCount, n, answers, maxAttempts);
      && (answers.outcome(n + k) == Accepts ==> r.result == ResultProcessed)
      && (answers.outcome(n + k) == Refuses ==>
            r.result == ResultSkipped && FailureOf(r.position, e) == Some(FailureRow(Quarantined, attemptCount + k + 1, e)))
    decreases k
  {
    if k > 0 {
      assert answers.outcome(n) == Throws && !answers.stopping(n);
      var q := Record(p, e, false, attemptCount + 1);
      FirstAnswerDecides(q, e, FailureOf(q, e), attemptCount + 1, n + 1, answers, maxAttempts, k - 1);
    } else {
      assert !answers.stopping(n);
    }
  }

  /** With errors only, the pass stops blocked after exactly the attempts it has left. */
  lemma {:induction false} ErrorsBlock(
    p: Position, e: Event, failure: Option<FailureRow>, attemptCount: nat, n: nat, answers: Answers, maxAttempts: nat)
    requires !Passed(p, e) && n < maxAttempts && ThrowsFirst(answers, n, maxAttempts - n)
    ensures
      var r := Retry(p, e, failure, attemptCount, n, answers, maxAttempts);
      r.result == ResultBlocked && FailureOf(r.position, e) == Some(FailureRow(Retrying, attemptCount + maxAttempts - n, e))
    decreases maxAttempts - n
  {
    assert answers.outcome(n) == Throws && !answers.stopping(n);
    if n + 1 < maxAttempts {
      var q := Record(p, e, false, attemptCount + 1);
      ErrorsBlock(q, e, FailureOf(q, e), attemptCount + 1, n + 1, answers, maxAttempts);
    }
  }

  /** The attempts that earlier passes have made: those of a row that is still retrying. */
  function Carried(p: Position, e: Event): nat {
    match FailureOf(p, e)
    case Some(row) => if row.state == FailureState.Retrying then row.attemptCount else 0
    case None => 0
  }

  /** A blocked event is left alone until someone unblocks it. */
  lemma BlockedEventWaits(p: Position, e: Event, answers: Answers, maxAttempts: nat)
    requires FailureOf(p, e).Some? && FailureOf(p, e).value.state == FailureState.Blocked
    ensures Handle(p, e, answers, maxAttempts) == Retried(p, ResultBlocked)
  {
  }

  /**
   A whole pass over one event: thrown errors up to an answer use up attempts, which count
   on from earlier passes, and the answer decides; without one the pass stops blocked.
   */
  lemma PassCountsOn(p: Position, e: Event, answers: Answers, maxAttempts: nat, k: nat)
    requires p.offset.Some? ==> p.offset.value < e.row.changeSequence
    requires FailureOf(p, e).Some? ==> FailureOf(p, e).value.state != FailureState.Blocked
    requires 1 <= maxAttempts && k <= maxAttempts && ThrowsFirst(answers, 0, k)
    requires k < maxAttempts ==> answers.outcome(k) != Throws
    ensures
      var r, count := Handle(p, e, answers, maxAttempts), Carried(p, e) + k;
      if k == maxAttempts then
        r.result == ResultBlocked && FailureOf(r.position, e) == Some(FailureRow(FailureState.Retrying, count, e))
      else if answers.outcome(k) == Accepts then r.result == ResultProcessed
      else r.result == ResultSkipped && FailureOf(r.position, e) == Some(FailureRow(FailureState.Quarantined, count + 1, e))
  {
    if k == maxAttempts {
      ErrorsBlock(p, e, FailureOf(p, e), Carried(p, e), 0, answers, maxAttempts);
    } else {
      FirstAnswerDecides(p, e, FailureOf(p, e), Carried(p, e), 0, answers, maxAttempts, k);
    }
  }
}
