/** The committed offset and the failure rows of a processor, and its transactions on them. */
module Progress {
  import opened Wrappers
  import opened Texts
  import opened Rows
  import opened EventStore
  import opened ChangeFeed

  datatype FailureState = Retrying | Quarantined | Blocked | Resolved | Superseded

  /** The primary key of a failure row, for one processor name. */
  datatype VersionKey = VersionKey(archiveEventId: nat, changeSequence: nat)

  datatype FailureRow = FailureRow(state: FailureState, attemptCount: nat, snapshot: Event)

  datatype Position = Position(
    offset: Option<nat>, failures: map<VersionKey, FailureRow>, dispatched: seq<Event>, quarantined: set<Event>)

  function KeyOfEvent(e: Event): VersionKey {
    VersionKey(e.row.id, e.row.changeSequence)
  }

  function Offset(p: Position): nat {
    if p.offset.Some? then p.offset.value else 0
  }

  function FailureOf(p: Position, e: Event): Option<FailureRow> {
    if KeyOfEvent(e) in p.failures then Some(p.failures[KeyOfEvent(e)]) else None
  }

  /** The committed offset already covers the event. */
  predicate Passed(p: Position, e: Event) {
    p.offset.Some? && p.offset.value >= SequenceOf(e)
  }

  /** What the registered handlers make of an event. */
  datatype Outcome = Accepts | Refuses | Throws

  datatype Verdict = Processed | Skipped | Failed(refused: bool)

  datatype Attempted = Attempted(position: Position, verdict: Verdict)

  /** An update of the state column of a row, if the row exists. */
  function SetState(failures: map<VersionKey, FailureRow>, key: VersionKey, state: FailureState): map<VersionKey, FailureRow> {
    if key in failures then failures[key := failures[key].(state := state)] else failures
  }

  /** A later success of the same event settles what its other versions left behind. */
  function SupersedeOthers(failures: map<VersionKey, FailureRow>, e: Event): map<VersionKey, FailureRow> {
    map key | key in failures ::
      if key.archiveEventId == e.row.id && key.changeSequence != SequenceOf(e)
         && (failures[key].state == Retrying || failures[key].state == Quarantined)
      then failures[key].(state := Superseded)
      else failures[key]
  }

  /**
   The processing transaction for one event, under the processor lock. failure is the
   row the worker read before it, which may be out of date.
   */
  function Attempt(p: Position, e: Event, failure: Option<FailureRow>, outcome: Outcome): Attempted {
    if Passed(p, e) then
      var failures :=
        if failure.Some? && failure.value.state != Quarantined then SetState(p.failures, KeyOfEvent(e), Superseded)
        else p.failures;
      Attempted(p.(failures := failures), Skipped)
    else
      match outcome
      case Refuses => Attempted(p, Failed(true))
      case Throws => Attempted(p, Failed(false))
      case Accepts =>
        var saved :=
          if failure.Some? then p.failures[KeyOfEvent(e) := failure.value.(state := Resolved)] else p.failures;
        Attempted(
          Position(Some(SequenceOf(e)), SupersedeOthers(saved, e), p.dispatched + [e], p.quarantined), Processed)
  }

  /** recordEventFailure: a refusal quarantines the event and moves the offset past it. */
  function Record(p: Position, e: Event, refused: bool, attemptCount: nat): Position {
    var failures := p.failures[KeyOfEvent(e) := FailureRow(if refused then Quarantined else Retrying, attemptCount, e)];
    if refused then
      Position(if Passed(p, e) then p.offset else Some(SequenceOf(e)), failures, p.dispatched, p.quarantined + {e})
    else p.(failures := failures)
  }

  /** markFailureSuperseded, and the operator's retry: only a blocked row changes. */
  function Unblock(p: Position, key: VersionKey, state: FailureState): Position {
    if key in p.failures && p.failures[key].state == Blocked then p.(failures := SetState(p.failures, key, state)) else p
  }

  // ---------------------------------------------------------------- what every transaction keeps

  ghost predicate Increasing(log: seq<Event>) {
    forall i, j | 0 <= i < j < |log| :: SequenceOf(log[i]) < SequenceOf(log[j])
  }

  /** Dispatches are in order, and nothing beyond the offset was dispatched or quarantined. */
  ghost predicate InOrder(p: Position) {
    && Increasing(p.dispatched)
    && (forall i | 0 <= i < |p.dispatched| :: SequenceOf(p.dispatched[i]) <= Offset(p))
    && (forall e | e in p.quarantined :: SequenceOf(e) <= Offset(p))
    && (forall key | key in p.failures && p.failures[key].state == Quarantined :: key.changeSequence <= Offset(p))
  }

  predicate Settled(p: Position, e: Event) {
    e in p.dispatched || e in p.quarantined
  }

  /** The offset never decreases, and the record of what was settled only grows. */
  ghost predicate Advances(p: Position, q: Position) {
    && Offset(p) <= Offset(q) && p.dispatched <= q.dispatched && p.quarantined <= q.quarantined
  }

  /** What one processing transaction does to offset and history. */
  lemma AttemptKeepsOrder(p: Position, e: Event, failure: Option<FailureRow>, outcome: Outcome)
    requires InOrder(p) && SequenceOf(e) >= 1
    ensures
      var r := Attempt(p, e, failure, outcome);
      && InOrder(r.position) && Advances(p, r.position) && r.position.quarantined == p.quarantined
      && (r.verdict == Skipped ==> SequenceOf(e) <= Offset(p) && r.position.dispatched == p.dispatched)
      && (r.verdict == Processed ==>
            Offset(p) < SequenceOf(e) == Offset(r.position) && r.position.dispatched == p.dispatched + [e])
      && (r.verdict.Failed? ==> r.position == p)
      && (r.verdict != Processed ==> Offset(r.position) == Offset(p))
  {
  }

  lemma RecordKeepsOrder(p: Position, e: Event, refused: bool, attemptCount: nat)
    requires InOrder(p) && SequenceOf(e) >= 1
    ensures
      var q := Record(p, e, refused, attemptCount);
      && InOrder(q) && Advances(p, q) && q.dispatched == p.dispatched
      && (refused ==> e in q.quarantined && (Offset(q) == SequenceOf(e) || Offset(q) == Offset(p) > SequenceOf(e)))
      && (!refused ==> q.offset == p.offset && q.quarantined == p.quarantined)
  {
  }

  lemma UnblockKeepsOrder(p: Position, key: VersionKey, state: FailureState)
    requires InOrder(p) && state != Quarantined
    ensures InOrder(Unblock(p, key, state)) && Advances(p, Unblock(p, key, state))
    ensures Unblock(p, key, state).offset == p.offset
    ensures Unblock(p, key, state).dispatched == p.dispatched && Unblock(p, key, state).quarantined == p.quarantined
  {
  }

  // ---------------------------------------------------------------- failure rows, key by key

  /** A row that a later success of the same event settles. */
  predicate LeftBehind(key: VersionKey, row: FailureRow, e: Event) {
    && key.archiveEventId == e.row.id && key.changeSequence != e.row.changeSequence
    && (row.state == Retrying || row.state == Quarantined)
  }

  predicate IsVersion(key: VersionKey, e: Event) {
    key.archiveEventId == e.row.id && key.changeSequence == e.row.changeSequence
  }

  /**
   After a success: the rows other versions of the event left behind are superseded, with
   count and snapshot kept, the row read for this version is resolved, and all others stay.
   */
  ghost predicate SettlesFailures(
    before: map<VersionKey, FailureRow>, after: map<VersionKey, FailureRow>, e: Event, failure: Option<FailureRow>)
  {
    && (forall key | key in after :: key in before || (IsVersion(key, e) && failure.Some?))
    && (forall key | key in before || (IsVersion(key, e) && failure.Some?) :: key in after && SettledRow(before, after, e, failure, key))
  }

  predicate SettledRow(
    before: map<VersionKey, FailureRow>, after: map<VersionKey, FailureRow>, e: Event, failure: Option<FailureRow>, key: VersionKey)
    requires key in after && (key in before || (IsVersion(key, e) && failure.Some?))
  {
    if IsVersion(key, e) && failure.Some? then
      after[key] == FailureRow(FailureState.Resolved, failure.value.attemptCount, failure.value.snapshot)
    else if LeftBehind(key, before[key], e) then
      after[key] == FailureRow(FailureState.Superseded, before[key].attemptCount, before[key].snapshot)
    else after[key] == before[key]
  }

  /** After a skip: the row of this version is superseded if the worker had read one that is not quarantined. */
  ghost predicate SkipsFailures(
    before: map<VersionKey, FailureRow>, after: map<VersionKey, FailureRow>, e: Event, failure: Option<FailureRow>)
  {
    && after.Keys == before.Keys
    && forall key | key in before ::
         if IsVersion(key, e) && failure.Some? && failure.value.state != Quarantined then
           after[key] == FailureRow(FailureState.Superseded, before[key].attemptCount, before[key].snapshot)
         else after[key] == before[key]
  }

  /** One row is written and the others stay. */
  ghost predicate OnlyRowChanges(before: map<VersionKey, FailureRow>, after: map<VersionKey, FailureRow>, key: VersionKey) {
    && key in after
    && forall other | other != key :: (other in before <==> other in after) && (other in after ==> after[other] == before[other])
  }

  /** After a success nothing of the event is left retrying or quarantined under another version. */
  lemma NothingLeftBehind(p: Position, e: Event, failure: Option<FailureRow>, outcome: Outcome, key: VersionKey)
    requires Attempt(p, e, failure, outcome).verdict == Processed
    ensures SettlesFailures(p.failures, Attempt(p, e, failure, outcome).position.failures, e, failure)
    ensures
      var after := Attempt(p, e, failure, outcome).position.failures;
      key in after ==> !LeftBehind(key, after[key], e)
  {
  }

  /** The verdict of the processing transaction, from the offset and the answer alone. */
  lemma VerdictIsExact(p: Position, e: Event, failure: Option<FailureRow>, outcome: Outcome)
    ensures
      var r := Attempt(p, e, failure, outcome);
      if p.offset.Some? && e.row.changeSequence <= p.offset.value then
        r.verdict == Skipped && SkipsFailures(p.failures, r.position.failures, e, failure)
      else
        match outcome
        case Accepts => r.verdict == Processed && r.position.offset == Some(e.row.changeSequence)
        case Refuses => r == Attempted(p, Failed(true))
        case Throws => r == Attempted(p, Failed(false))
  {
  }

  /** A recorded failure: this version's row is written, no other, and a refusal moves the offset at least this far. */
  lemma RecordIsExact(p: Position, e: Event, refused: bool, attemptCount: nat)
    ensures
      var q := Record(p, e, refused, attemptCount);
      && OnlyRowChanges(p.failures, q.failures, KeyOfEvent(e)) && IsVersion(KeyOfEvent(e), e)
      && q.failures[KeyOfEvent(e)] == FailureRow(if refused then FailureState.Quarantined else FailureState.Retrying, attemptCount, e)
      && (if refused then
            q.offset == Some(if p.offset.Some? && p.offset.value > e.row.changeSequence then p.offset.value else e.row.changeSequence)
          else q.offset == p.offset)
  {
  }

  /** Superseding: a blocked row, and no other, ends superseded with count and snapshot kept. */
  lemma UnblockIsExact(p: Position, key: VersionKey, state: FailureState)
    ensures
      var q := Unblock(p, key, state);
      if key in p.failures && p.failures[key].state == FailureState.Blocked then
        && OnlyRowChanges(p.failures, q.failures, key)
        && q.failures[key] == FailureRow(state, p.failures[key].attemptCount, p.failures[key].snapshot)
      else q == p
  {
  }
}
