/** When an ingestion goes through, and which pending rows it retires. */
module Ingestions {
  import opened Wrappers
  import opened Texts
  import opened Json
  import opened Rows
  import opened Validation
  import opened BlockOrder
  import opened Batches
  import opened Transactions
  import opened Lifecycle

  // ---------------------------------------------------------------- arguments and range

  /** Safe heights, and a complete range that ends at the height of the cursor. */
  predicate ArgumentsFit(op: Ingestion) {
    && 0 <= op.blockHeight <= 9_007_199_254_740_991
    && (op.completeRange.Some? ==>
          0 <= op.completeRange.value.from <= op.completeRange.value.to && op.completeRange.value.to == op.blockHeight)
  }

  /** A complete range keeps exactly the accepted rows of its heights; without one all are kept. */
  lemma RangeKeepsItsHeights(op: Ingestion, row: Incoming)
    ensures row in Ranged(op).accepted <==>
      row in op.batch.accepted
      && (op.completeRange.Some? ==>
            row.columns.blockHeight.Some? && op.completeRange.value.from <= row.columns.blockHeight.value <= op.completeRange.value.to)
  {
    if op.completeRange.Some? {
      SplitByRangeFilters(op.status, op.batch.accepted, op.completeRange.value);
    }
  }

  // ---------------------------------------------------------------- when it goes through

  /** A canonical row at or above the anchor of the ancestry, with a state hash. */
  predicate BeyondAnchor(c: Columns, anchor: AncestryBlock) {
    && c.status == Status.Canonical && c.blockHeight.Some? && anchor.blockHeight <= c.blockHeight.value
    && c.stateHash.Some? && |c.stateHash.value| > 0
  }

  /** Every canonical row beyond the anchor lies on the selected chain. */
  ghost predicate OnSelectedChain(content: Content, ancestry: seq<AncestryBlock>) {
    |ancestry| > 0 ==>
      forall id | id in content && BeyondAnchor(content[id], ancestry[0]) ::
        exists i :: 0 <= i < |ancestry| && ancestry[i].stateHash == content[id].stateHash.value
  }

  lemma ContradictionIsOffChain(content: Content, ancestry: seq<AncestryBlock>)
    ensures ContradictsAncestry(content, ancestry) <==> !OnSelectedChain(content, ancestry)
  {
    if !OnSelectedChain(content, ancestry) {
      var id :| id in content && BeyondAnchor(content[id], ancestry[0])
        && !exists i :: 0 <= i < |ancestry| && ancestry[i].stateHash == content[id].stateHash.value;
      assert forall i | 0 <= i < |ancestry| :: ancestry[i].stateHash != content[id].stateHash.value;
    }
  }

  /** The row's numbers are in range of their integer columns. */
  predicate FitsColumns(row: Incoming) {
    var c, max := row.columns, 2_147_483_647;
    && 0 <= row.identity.accountUpdateIndex <= max && 0 <= row.identity.eventIndex <= max && 0 <= c.blockEventIndex <= max
    && (c.blockHeight.Some? ==> 0 <= c.blockHeight.value <= max)
    && (c.pendingSeenAtHeight.Some? ==> 0 <= c.pendingSeenAtHeight.value <= max)
    && (c.globalSlot.Some? ==> 0 <= c.globalSlot.value <= 4_294_967_295)
  }

  ghost predicate AllFitColumns(rows: seq<Incoming>) {
    forall row | row in rows :: FitsColumns(row)
  }

  lemma StorableRowsFit(rows: seq<Incoming>)
    ensures AllStorable(rows) <==> AllFitColumns(rows)
  {
    assert forall i | 0 <= i < |rows| :: rows[i] in rows;
  }

  /**
   An ingestion goes through exactly if its arguments fit, no canonical row beyond the
   anchor is off the selected chain, a replacing snapshot has no rejection, and the
   numbers fit their columns. Only a canonical row off the chain makes it fail for the
   ancestry, whatever stands below the anchor.
   */
  lemma IngestionGoesThroughExactly(content: Content, op: Ingestion)
    ensures
      var prepared := Prepare(content, Ranged(op));
      Ingest(content, op).Success? <==>
      && ArgumentsFit(op) && OnSelectedChain(content, op.ancestry)
      && (op.replacePendingBranch ==> prepared.rejected == [])
      && AllFitColumns(prepared.accepted) && op.blockHeight <= 2_147_483_647
    ensures Ingest(content, op) == Failure(ContradictedAncestry) <==> ArgumentsFit(op) && !OnSelectedChain(content, op.ancestry)
  {
    ContradictionIsOffChain(content, op.ancestry);
    StorableRowsFit(Prepare(content, Ranged(op)).accepted);
  }

  // ---------------------------------------------------------------- what it retires

  /** Some accepted row is canonical and was not before. */
  ghost predicate TurnsCanonical(content: Content, rows: seq<Incoming>) {
    exists row :: row in rows && row.columns.status == Status.Canonical
                  && !(row.identity in content && content[row.identity].status == Status.Canonical)
  }

  /** A clean pending snapshot of the row's height, or of the whole branch. */
  predicate SnapshotCovers(op: Ingestion, rejected: seq<Rejection>, height: int) {
    && op.status == Pending && op.completeRange.Some? && rejected == []
    && (op.replacePendingBranch || op.completeRange.value.from <= height <= op.completeRange.value.to)
  }

  lemma AdvancingTurnsCanonical(content: Content, rows: seq<Incoming>)
    ensures AdvancesCanonical(content, rows) <==> TurnsCanonical(content, rows)
  {
    if AdvancesCanonical(content, rows) {
      var i :| 0 <= i < |rows| && rows[i].columns.status == Status.Canonical && !IsCanonical(content, rows[i].identity);
      assert rows[i] in rows;
    }
  }

  /** The content after the first update of BeforeUpsert. */
  function Unpended(content: Content, advances: bool): Content {
    if advances then OrphanAllPending(content) else content
  }

  lemma UnpendedRow(content: Content, advances: bool, id: Identity)
    requires IsPending(content, id)
    ensures id in Unpended(content, advances)
    ensures Unpended(content, advances)[id] == content[id].(status := if advances then Orphaned else Pending)
  {
  }

  lemma RetiredRow(content: Content, range: Range, observed: set<Identity>, id: Identity)
    requires id in content
    ensures id in RetireAbsent(content, range, observed)
    ensures RetireAbsent(content, range, observed)[id].status ==
      if id !in observed && Between(content[id].blockHeight, range) && content[id].status == Pending then Orphaned
      else content[id].status
  {
  }

  function RangeToRetire(op: Ingestion): Range {
    if op.replacePendingBranch || op.completeRange.None? then WHOLE_CHAIN else op.completeRange.value
  }

  lemma TwoUpdates(content: Content, op: Ingestion, prepared: Prepared)
    ensures
      var unpended := Unpended(content, AdvancesCanonical(content, prepared.accepted));
      BeforeUpsert(content, op, prepared) ==
      if Retires(op, prepared) then RetireAbsent(unpended, RangeToRetire(op), Identities(prepared.accepted)) else unpended
  {
  }

  lemma CoversWhatItRetires(op: Ingestion, prepared: Prepared, height: int)
    requires FitsInt4(height)
    ensures Retires(op, prepared) && Between(Some(height), RangeToRetire(op)) <==> SnapshotCovers(op, prepared.rejected, height)
  {
  }

  lemma MiddleStatus(content: Content, op: Ingestion, prepared: Prepared, id: Identity, advances: bool)
    requires IsPending(content, id) && content[id].blockHeight.Some? && FitsInt4(content[id].blockHeight.value)
    requires advances == AdvancesCanonical(content, prepared.accepted)
    ensures id in BeforeUpsert(content, op, prepared)
    ensures
      BeforeUpsert(content, op, prepared)[id].status ==
      if advances || (id !in Identities(prepared.accepted) && SnapshotCovers(op, prepared.rejected, content[id].blockHeight.value))
      then Orphaned else Pending
  {
    TwoUpdates(content, op, prepared);
    CoversWhatItRetires(op, prepared, content[id].blockHeight.value);
    UnpendedRow(content, advances, id);
    RetiredRow(Unpended(content, advances), RangeToRetire(op), Identities(prepared.accepted), id);
  }

  lemma SeenRowIsNotRetired(before: Option<Columns>, middle: Option<Columns>, seen: Option<Columns>)
    requires Fits(before, middle, seen) && before.Some? && before.value.status == Pending
    requires seen.Some? ==> seen.value.status != Orphaned
    ensures
      var after := Settle(middle, seen);
      after.Some? && (after.value.status == Orphaned <==> seen.None? && middle.value.status == Orphaned)
  {
  }

  lemma PlanRetiresExactly(content: Content, op: Ingestion, prepared: Prepared, id: Identity)
    requires ValidContent(content) && FromArchive(op.status, op.batch) && IsPending(content, id) && op.status != Orphaned
    requires PlanOf(content, Ingesting(op)) == Plan(BeforeUpsert(content, op, prepared), prepared.accepted)
    ensures id in Apply(content, Ingesting(op))
    ensures Apply(content, Ingesting(op))[id].status == Orphaned <==>
      && id !in Identities(prepared.accepted)
      && (AdvancesCanonical(content, prepared.accepted) || SnapshotCovers(op, prepared.rejected, content[id].blockHeight.value))
  {
    var middle := BeforeUpsert(content, op, prepared);
    MiddleStatus(content, op, prepared, id, AdvancesCanonical(content, prepared.accepted));
    PlanIsSound(content, Ingesting(op));
    PlanFits(content, middle, prepared.accepted, op.status, id);
    SeenRowIsNotRetired(Lookup(content, id), Lookup(middle, id), IncomingFor(prepared.accepted, id));
    ApplyAt(content, Ingesting(op), id);
  }

  lemma SuccessIsThePlan(content: Content, op: Ingestion)
    requires Ingest(content, op).Success?
    ensures
      var prepared, r := Prepare(content, Ranged(op)), Ingest(content, op).value;
      && r.content == Apply(content, Ingesting(op)) && r.accepted == prepared.accepted && r.rejected == prepared.rejected
      && PlanOf(content, Ingesting(op)) == Plan(BeforeUpsert(content, op, prepared), prepared.accepted)
  {
    ApplyIsTheTransaction(content, op);
  }

  /**
   Which pending rows an ingestion turns orphaned: those it does not observe, if it makes
   some row canonical or is a clean pending snapshot that covers their height.
   */
  lemma RetiresExactly(content: Content, op: Ingestion, id: Identity)
    requires ValidContent(content) && FromArchive(op.status, op.batch) && Ingest(content, op).Success?
    requires IsPending(content, id) && op.status != Orphaned
    ensures
      var r := Ingest(content, op).value;
      && id in r.content
      && (r.content[id].status == Orphaned <==>
            && id !in Identities(r.accepted)
            && (TurnsCanonical(content, r.accepted) || SnapshotCovers(op, r.rejected, content[id].blockHeight.value)))
  {
    var prepared := Prepare(content, Ranged(op));
    SuccessIsThePlan(content, op);
    AdvancingTurnsCanonical(content, prepared.accepted);
    PlanRetiresExactly(content, op, prepared, id);
  }

  // ---------------------------------------------------------------- what becomes of each observed row

  /** Row f is the first of its identity. */
  predicate IsFirst(rows: seq<Incoming>, f: nat)
    requires f < |rows|
  {
    forall k | 0 <= k < f :: rows[k].identity != rows[f].identity
  }

  lemma NewRowIsKept(front: Prepared, row: Incoming, matches: (Incoming, Incoming) -> bool)
    requires Find(front.accepted, row.identity).None?
    ensures row in DedupeStep(front, row, matches).accepted
  {
  }

  lemma {:induction false} DedupeKeepsFirst(rows: seq<Incoming>, matches: (Incoming, Incoming) -> bool, f: nat)
    requires f < |rows| && IsFirst(rows, f)
    ensures rows[f] in Dedupe(rows, matches).accepted
  {
    var front, row := rows[..|rows| - 1], rows[|rows| - 1];
    if f < |front| {
      DedupeKeepsFirst(front, matches, f);
      StepOnlyAppends(Dedupe(front, matches), row, matches);
    } else {
      NoneSeparate(front, row.identity, matches);
      NewRowIsKept(Dedupe(front, matches), row, matches);
    }
  }

  lemma FoundIsFirst(rows: seq<Incoming>, matches: (Incoming, Incoming) -> bool, f: nat)
    requires f < |rows| && IsFirst(rows, f)
    ensures
      var kept := Dedupe(rows, matches).accepted;
      var at := Find(kept, rows[f].identity);
      at.Some? && kept[at.value] == rows[f]
  {
    DedupeKeepsFirst(rows, matches, f);
    DedupeIsSound(rows, matches);
    var kept := Dedupe(rows, matches).accepted;
    var k :| 0 <= k < |kept| && kept[k] == rows[f];
    assert Find(kept, rows[f].identity).Some?;
  }

  /** Where the first pass puts a row whose identity first occurs in another one. */
  ghost predicate JudgedByFirst(prepared: Prepared, first: Incoming, row: Incoming, matches: (Incoming, Incoming) -> bool) {
    if matches(first, row) then row.source in prepared.dropped
    else RejectedAs(prepared.rejected, row, ImmutableEventConflict)
  }

  /** The rejections hold the row with its status, height, place and this reason. */
  ghost predicate RejectedAs(rejected: seq<Rejection>, row: Incoming, code: Code) {
    Rejection(row.source, row.columns.status, row.columns.blockHeight, Some(row.columns.blockEventIndex), code) in rejected
  }

  lemma StepOnlyAppends(front: Prepared, row: Incoming, matches: (Incoming, Incoming) -> bool)
    ensures
      var next := DedupeStep(front, row, matches);
      && (forall x | x in front.accepted :: x in next.accepted)
      && (forall x | x in front.rejected :: x in next.rejected)
      && (forall x | x in front.dropped :: x in next.dropped)
  {
  }

  lemma LastIsJudged(front: Prepared, first: Incoming, row: Incoming, matches: (Incoming, Incoming) -> bool)
    requires
      var at := Find(front.accepted, row.identity);
      at.Some? && front.accepted[at.value] == first
    ensures JudgedByFirst(DedupeStep(front, row, matches), first, row, matches)
  {
  }

  lemma {:induction false} DedupeJudges(rows: seq<Incoming>, matches: (Incoming, Incoming) -> bool, f: nat, i: nat)
    requires f < i < |rows| && IsFirst(rows, f) && rows[f].identity == rows[i].identity
    ensures JudgedByFirst(Dedupe(rows, matches), rows[f], rows[i], matches)
  {
    var front, row := Dedupe(rows[..|rows| - 1], matches), rows[|rows| - 1];
    if i < |rows| - 1 {
      DedupeJudges(rows[..|rows| - 1], matches, f, i);
      StepOnlyAppends(front, row, matches);
    } else {
      FoundIsFirst(rows[..|rows| - 1], matches, f);
      LastIsJudged(front, rows[f], row, matches);
    }
  }

  lemma {:induction false} CheckJudges(rows: seq<Incoming>, matches: Incoming -> bool, row: Incoming)
    requires row in rows && !matches(row)
    ensures RejectedAs(CheckStored(rows, matches).rejected, row, ImmutableEventConflict)
  {
    var n := |rows| - 1;
    if row != rows[n] {
      assert row in rows[..n];
      CheckJudges(rows[..n], matches, row);
    }
  }

  /** Event type and contract data agree. */
  predicate SameImmutables(a: Columns, b: Columns) {
    a.eventType == b.eventType && Field(a.rawEventData, Name("data")) == Field(b.rawEventData, Name("data"))
  }

  lemma MatchingIsSameImmutables(a: Incoming, b: Incoming)
    requires a.identity == b.identity && ValidColumns(a.columns) && ValidColumns(b.columns)
    ensures SameEvent(a, b) <==> SameImmutables(a.columns, b.columns)
  {
    ImmutableMatchesIsExact(a.identity, a.columns, b.identity, b.columns);
  }

  lemma StoredMatchIsSameImmutables(content: Content, row: Incoming)
    requires ValidContent(content) && ValidColumns(row.columns)
    ensures MatchesStored(content, row) <==>
      (row.identity in content ==> SameImmutables(content[row.identity], row.columns))
  {
    if row.identity in content {
      assert ValidColumns(content[row.identity]);
      ImmutableMatchesIsExact(row.identity, content[row.identity], row.identity, row.columns);
    }
  }

  /**
   What becomes of every row of a batch: the first of an event is accepted if it agrees in
   event type and contract data with the stored row, if there is one, and rejected as a
   conflict otherwise; a later one is dropped or rejected by comparison with the first.
   */
  lemma EveryRowIsJudged(content: Content, batch: Batch, status: Status, f: nat, i: nat)
    requires ValidContent(content) && ValidRows(batch.accepted, status)
    requires f <= i < |batch.accepted| && IsFirst(batch.accepted, f)
    requires batch.accepted[f].identity == batch.accepted[i].identity
    ensures
      var r, first, row := Prepare(content, batch), batch.accepted[f], batch.accepted[i];
      if f < i then
        if SameImmutables(first.columns, row.columns) then row.source in r.dropped
        else RejectedAs(r.rejected, row, ImmutableEventConflict)
      else if row.identity in content && !SameImmutables(content[row.identity], row.columns) then
        RejectedAs(r.rejected, row, ImmutableEventConflict)
      else row in r.accepted
  {
    var rows := batch.accepted;
    var unique, matches := Dedupe(rows, SameEvent), (row: Incoming) => MatchesStored(content, row);
    var checked := CheckStored(unique.accepted, matches);
    assert Prepare(content, batch) == Prepared(checked.accepted, batch.rejected + unique.rejected + checked.rejected, unique.dropped);
    if f < i { DedupeJudges(rows, SameEvent, f, i); } else { DedupeKeepsFirst(rows, SameEvent, f); }
    assert ValidRow(rows[f], status) && ValidRow(rows[i], status);
    MatchingIsSameImmutables(rows[f], rows[i]);
    StoredMatchIsSameImmutables(content, rows[i]);
    CheckStoredFilters(unique.accepted, matches);
    if f == i && !matches(rows[i]) { CheckJudges(unique.accepted, matches, rows[i]); }
  }

  /** A complete range rejects what lies outside, and says so. */
  lemma {:induction false} SplitRejectsOutside(status: Status, rows: seq<Incoming>, range: Range, row: Incoming)
    requires row in rows && !InRange(row, range) && row.columns.status == status
    ensures RejectedAs(SplitByRange(status, rows, range).rejected, row, EventOutsideCompleteRange)
  {
    var n := |rows| - 1;
    if row != rows[n] {
      assert row in rows[..n];
      SplitRejectsOutside(status, rows[..n], range, row);
    }
  }

  lemma RangeRejectsOutside(op: Ingestion, row: Incoming)
    requires op.completeRange.Some? && row in op.batch.accepted && row.columns.status == op.status
    requires row.columns.blockHeight.Some? ==>
      !(op.completeRange.value.from <= row.columns.blockHeight.value <= op.completeRange.value.to)
    ensures RejectedAs(Ranged(op).rejected, row, EventOutsideCompleteRange)
  {
    SplitRejectsOutside(op.status, op.batch.accepted, op.completeRange.value, row);
  }
}
