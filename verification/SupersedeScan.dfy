/**
 The search for a later version of a blocked event (trySupersedeBlockedFailure): it
 pages through the feed with a cursor of its own and never moves the offset.
 */
module SupersedeScan {
  import opened Wrappers
  import opened Texts
  import opened Json
  import opened Rows
  import opened Lifecycle
  import opened EventStore
  import opened ChangeFeed
  import opened Progress
  import EventsProcessor

  /** What a failure row remembers of the event. A field of an older row may be missing. */
  datatype Snapshot = Snapshot(
    id: Option<nat>, eventType: Option<Text>, txHash: Option<Text>,
    accountUpdateIndex: Option<int>, eventIndex: Option<int>, rawEventData: Value)

  datatype BlockedFailure = BlockedFailure(key: VersionKey, snapshot: Snapshot)

  /** eventSnapshot, as far as the search reads it. */
  function SnapshotOf(e: Event): Snapshot {
    Snapshot(
      Some(e.row.id), Some(e.row.columns.eventType), Some(e.key.txHash),
      Some(e.key.accountUpdateIndex), Some(e.key.eventIndex), e.row.columns.rawEventData)
  }

  predicate IsImmutableSuccessor(failure: BlockedFailure, e: Event) {
    var snapshot := failure.snapshot;
    && e.row.id == failure.key.archiveEventId
    && SequenceOf(e) > failure.key.changeSequence
    && snapshot.id == Some(e.row.id)
    && snapshot.eventType == Some(e.row.columns.eventType)
    && snapshot.txHash == Some(e.key.txHash)
    && snapshot.accountUpdateIndex == Some(e.key.accountUpdateIndex)
    && snapshot.eventIndex == Some(e.key.eventIndex)
    && StableJson(ContractData(snapshot.rawEventData)) == StableJson(ContractData(e.row.columns.rawEventData))
  }

  /** For any failure row, whatever its snapshot remembers: the successor is a later version of the same row and event. */
  lemma SuccessorFitsTheFailure(failure: BlockedFailure, e: Event)
    requires WellFormed(ContractData(failure.snapshot.rawEventData)) && WellFormed(ContractData(e.row.columns.rawEventData))
    ensures IsImmutableSuccessor(failure, e) <==>
      && e.row.id == failure.key.archiveEventId && e.row.changeSequence > failure.key.changeSequence
      && failure.snapshot.(rawEventData := Null) ==
           Snapshot(
             Some(failure.key.archiveEventId), Some(e.row.columns.eventType), Some(e.key.txHash),
             Some(e.key.accountUpdateIndex), Some(e.key.eventIndex), Null)
      && Same(Field(failure.snapshot.rawEventData, Name("data")), Field(e.row.columns.rawEventData, Name("data")))
  {
    StableJsonIsExact(ContractData(failure.snapshot.rawEventData), ContractData(e.row.columns.rawEventData));
  }

  /** The textual comparison of contract data is equality of JSON values. */
  lemma SuccessorIsExact(failed: Event, e: Event)
    requires WellFormed(ContractData(failed.row.columns.rawEventData)) && WellFormed(ContractData(e.row.columns.rawEventData))
    ensures IsImmutableSuccessor(BlockedFailure(KeyOfEvent(failed), SnapshotOf(failed)), e) <==>
      && e.row.id == failed.row.id && e.key == failed.key && SequenceOf(e) > SequenceOf(failed)
      && e.row.columns.eventType == failed.row.columns.eventType
      && Same(ContractData(failed.row.columns.rawEventData), ContractData(e.row.columns.rawEventData))
  {
    StableJsonIsExact(ContractData(failed.row.columns.rawEventData), ContractData(e.row.columns.rawEventData));
  }

  /** Whatever a row becomes after it failed is an immutable successor of the failed version. */
  lemma RewrittenRowIsSuccessor(failed: Event, e: Event)
    requires e.key == failed.key && e.row.id == failed.row.id && SequenceOf(e) > SequenceOf(failed)
    requires Continues(failed.row.columns, e.row.columns)
    ensures IsImmutableSuccessor(BlockedFailure(KeyOfEvent(failed), SnapshotOf(failed)), e)
  {
  }

  /** A handled successor of the failed version stands in the feed beyond the offset. */
  ghost predicate HasSuccessor(rows: map<Identity, Row>, types: set<Text>, offset: nat, failure: BlockedFailure) {
    exists e: Event :: IsCurrent(rows, e) && Handles(types, e) && SequenceOf(e) > offset && IsImmutableSuccessor(failure, e)
  }

  /** No successor up to the cursor. */
  ghost predicate NoneUpTo(rows: map<Identity, Row>, types: set<Text>, offset: nat, cursor: nat, failure: BlockedFailure) {
    forall e: Event | IsCurrent(rows, e) && Handles(types, e) && offset < SequenceOf(e) <= cursor ::
      !IsImmutableSuccessor(failure, e)
  }

  lemma EmptyPageEndsTheSearch(
    rows: map<Identity, Row>, types: set<Text>, offset: nat, cursor: nat, limit: nat, failure: BlockedFailure)
    requires NoneUpTo(rows, types, offset, cursor, failure) && PageOf(rows, types, cursor, limit, [])
    ensures !HasSuccessor(rows, types, offset, failure)
  {
    forall e: Event | IsCurrent(rows, e) && Handles(types, e) ensures SequenceOf(e) <= cursor {
      assert !Covered([], limit, e);
    }
  }

  lemma PageExtendsTheSearch(
    rows: map<Identity, Row>, types: set<Text>, offset: nat, cursor: nat, limit: nat, page: seq<Event>, failure: BlockedFailure)
    requires NoneUpTo(rows, types, offset, cursor, failure) && PageOf(rows, types, cursor, limit, page) && page != []
    requires forall i | 0 <= i < |page| :: !IsImmutableSuccessor(failure, page[i])
    ensures NoneUpTo(rows, types, offset, SequenceOf(page[|page| - 1]), failure)
  {
    var last := SequenceOf(page[|page| - 1]);
    forall e: Event | IsCurrent(rows, e) && Handles(types, e) && offset < SequenceOf(e) <= last
      ensures !IsImmutableSuccessor(failure, e)
    {
      if SequenceOf(e) > cursor {
        assert Covered(page, limit, e);
      }
    }
  }

  lemma SearchGetsShorter(rows: map<Identity, Row>, types: set<Text>, cursor: nat, e: Event)
    requires IsCurrent(rows, e) && Handles(types, e) && SequenceOf(e) > cursor
    ensures Remaining(rows, types, SequenceOf(e)) < Remaining(rows, types, cursor)
  {
    assert e.key in Remaining(rows, types, cursor);
  }

  /** The page loop: it ends, and finds a successor exactly when there is one. */
  method FindSuccessor(t: Table, types: set<Text>, offset: nat, limit: nat, failure: BlockedFailure) returns (found: bool)
    requires WellNumbered(t) && limit >= 1
    ensures found <==> HasSuccessor(t.rows, types, offset, failure)
  {
    var scanCursor := offset;
    while true
      invariant offset <= scanCursor && NoneUpTo(t.rows, types, offset, scanCursor, failure)
      decreases Remaining(t.rows, types, scanCursor)
    {
      var page := GetEventsPage(t, types, scanCursor, limit);
      if exists i | 0 <= i < |page| :: IsImmutableSuccessor(failure, page[i]) {
        return true;
      }
      if page == [] {
        EmptyPageEndsTheSearch(t.rows, types, offset, scanCursor, limit, failure);
        return false;
      }
      PageExtendsTheSearch(t.rows, types, offset, scanCursor, limit, page, failure);
      SearchGetsShorter(t.rows, types, scanCursor, page[|page| - 1]);
      scanCursor := SequenceOf(page[|page| - 1]);
    }
  }

  /**
   trySupersedeBlockedFailure over a fixed feed, with any page size: a failure that is
   still blocked is superseded exactly when the offset covers it or the feed holds a
   handled successor beyond the offset. Nothing else changes.
   */
  method TrySupersedeBlockedFailure(
    p: EventsProcessor.Processor, t: Table, types: set<Text>, limit: nat, failure: BlockedFailure) returns (superseded: bool)
    requires WellNumbered(t) && limit >= 1
    modifies p`failures
    ensures superseded <==>
      && (Offset(old(p.At())) >= failure.key.changeSequence || HasSuccessor(t.rows, types, Offset(old(p.At())), failure))
      && failure.key in old(p.failures) && old(p.failures)[failure.key].state == FailureState.Blocked
    ensures p.At() == if superseded then Unblock(old(p.At()), failure.key, Superseded) else old(p.At())
    ensures superseded ==> OnlyRowChanges(old(p.failures), p.failures, failure.key)
    ensures superseded ==> p.failures[failure.key].state == FailureState.Superseded
  {
    var changeSequenceAfter := if p.offset.Some? then p.offset.value else 0;
    if changeSequenceAfter >= failure.key.changeSequence {
      superseded := p.MarkFailureSuperseded(failure.key);
      return;
    }
    var found := FindSuccessor(t, types, changeSequenceAfter, limit, failure);
    if !found {
      return false;
    }
    superseded := p.MarkFailureSuperseded(failure.key);
  }
}
