/** One pass of the processor: the page beyond the committed offset, event by event. */
module ProcessOnce {
  import opened Texts
  import opened Rows
  import opened EventStore
  import opened ChangeFeed
  import opened Progress
  import Consumer
  import EventsProcessor

  /** A current row of a handled type beyond the offset. */
  ghost predicate Waits(t: Table, types: set<Text>, offset: nat, e: Event) {
    e.key in t.rows && t.rows[e.key] == e.row && e.row.columns.eventType in types && offset < e.row.changeSequence
  }

  lemma WaitingIsServed(t: Table, types: set<Text>, offset: nat, limit: nat, page: seq<Event>, e: Event)
    requires PageOf(t.rows, types, offset, limit, page) && Waits(t, types, offset, e)
    ensures |page| > 0 && SequenceOf(page[0]) <= SequenceOf(e)
    ensures e in page || (|page| == limit && SequenceOf(page[|page| - 1]) < SequenceOf(e))
  {
    assert Covered(page, limit, e);
    if e in page {
      var i :| 0 <= i < |page| && page[i] == e;
      assert i == 0 || SequenceOf(page[0]) < SequenceOf(page[i]);
    } else {
      assert |page| == 1 || SequenceOf(page[0]) < SequenceOf(page[|page| - 1]);
    }
  }

  lemma ServedWaits(t: Table, types: set<Text>, offset: nat, limit: nat, page: seq<Event>, i: nat)
    requires PageOf(t.rows, types, offset, limit, page) && i < |page|
    ensures Waits(t, types, offset, page[i])
  {
  }

  /**
   processOnceFromIndexerApi over a feed that stands still: it fetches nothing exactly when
   nothing waits. A pass that is not blocked settles, in order, the rows that wait, all of
   them or the first that fill a page, and leaves the offset at the last of them.
   */
  method ProcessOnceFromIndexerApi(
    p: EventsProcessor.Processor, t: Table, types: set<Text>, limit: nat, answersOf: Event -> EventsProcessor.Answers)
    returns (fetchedRows: nat, processedRows: nat, blocked: bool)
    requires WellNumbered(t) && limit >= 1 && p.maxAttempts >= 1 && InOrder(p.At())
    modifies p
    ensures InOrder(p.At()) && Advances(old(p.At()), p.At()) && |p.dispatched| == |old(p.dispatched)| + processedRows
    ensures fetchedRows == 0 <==> forall e :: !Waits(t, types, Offset(old(p.At())), e)
    ensures fetchedRows == 0 ==> !blocked && p.At() == old(p.At())
    ensures fetchedRows > 0 && !blocked ==> Offset(p.At()) > Offset(old(p.At()))
    ensures !blocked ==> forall e | Waits(t, types, Offset(old(p.At())), e) ::
      if SequenceOf(e) <= Offset(p.At()) then Settled(p.At(), e) else fetchedRows == limit
    ensures forall i | |old(p.dispatched)| <= i < |p.dispatched| :: Waits(t, types, Offset(old(p.At())), p.dispatched[i])
  {
    ghost var before := p.At();
    var changeSequenceAfter := if p.offset.Some? then p.offset.value else 0;
    var page := GetEventsPage(t, types, changeSequenceAfter, limit);
    forall i | 0 <= i < |page| ensures Waits(t, types, Offset(before), page[i]) {
      ServedWaits(t, types, Offset(before), limit, page, i);
    }
    forall e | Waits(t, types, Offset(before), e)
      ensures |page| > 0 && (e in page || (|page| == limit && SequenceOf(page[|page| - 1]) < SequenceOf(e)))
    {
      WaitingIsServed(t, types, Offset(before), limit, page, e);
    }
    fetchedRows := |page|;
    processedRows, blocked := p.ProcessPage(page, seq(|page|, i requires 0 <= i < |page| => answersOf(page[i])));
  }

  /** A worker of the state machine asks beyond the offset, so what it gets begins with the next row that waits. */
  lemma NextRowIsServed(
    c: Consumer.Settings, s: Consumer.State, i: nat, page: seq<Event>, limit: nat, e: Event)
    requires Consumer.Enabled(c, s, Consumer.AskForPage(i))
    requires Consumer.Enabled(c, Consumer.Do(c, s, Consumer.AskForPage(i)), Consumer.ReceivePage(i, page, limit))
    requires Waits(s.committed, c.types, Offset(s.position), e)
    ensures |page| > 0 && Offset(s.position) < SequenceOf(page[0]) <= SequenceOf(e)
  {
    WaitingIsServed(s.committed, c.types, Offset(s.position), limit, page, e);
  }
}
