/**
 Change detection across a whole transaction. A row is dated when an orphaning update
 hits it, or when the upsert inserts it or takes the branch that touches it; that is
 exactly when it changed, because only an advancing canonical batch orphans a row that
 it also observes. So ingesting a batch a second time touches no event row.
 */
module Reingestion {
  import opened Wrappers
  import opened Texts
  import opened Json
  import opened Rows
  import opened Validation
  import opened BlockOrder
  import opened Batches
  import opened Transactions
  import opened Lifecycle

  /**
   Some statement of the transaction sets updated_at of the row: an orphaning update
   hits it, or the upsert inserts it or takes the touching branch.
   */
  predicate Dated(content: Content, w: Write, id: Identity) {
    var plan := PlanOf(content, w);
    Lookup(plan.middle, id) != Lookup(content, id) || DatedByUpsert(Lookup(plan.middle, id), IncomingFor(plan.rows, id))
  }

  predicate DatedByUpsert(stored: Option<Columns>, incoming: Option<Columns>) {
    incoming.Some? && (stored.None? || Touches(stored.value, incoming.value))
  }

  /** A row orphaned on the way and observed again is observed as canonical. */
  predicate ComesBackCanonical(stored: Option<Columns>, middle: Option<Columns>, incoming: Option<Columns>) {
    stored != middle && incoming.Some? ==> incoming.value.status == Status.Canonical
  }

  lemma RowIsDatedWhenChanged(stored: Option<Columns>, middle: Option<Columns>, incoming: Option<Columns>)
    requires Fits(stored, middle, incoming) && ComesBackCanonical(stored, middle, incoming)
    ensures stored != middle || DatedByUpsert(middle, incoming) <==> Settle(middle, incoming) != stored
  {
    if incoming.Some? && middle.Some? {
      TouchIsExact(middle.value, incoming.value);
    }
  }

  /** Only an advancing canonical batch orphans a row that it also observes. */
  predicate KeepsObserved(content: Content, middle: Content, rows: seq<Incoming>, status: Status) {
    status != Status.Canonical ==> forall id | id in Identities(rows) :: Lookup(middle, id) == Lookup(content, id)
  }

  lemma BeforeUpsertKeepsObserved(content: Content, op: Ingestion, prepared: Prepared)
    requires SoundRows(content, prepared.accepted, op.status)
    ensures KeepsObserved(content, BeforeUpsert(content, op, prepared), prepared.accepted, op.status)
  {
    if AdvancesCanonical(content, prepared.accepted) {
      var i :| 0 <= i < |prepared.accepted| && prepared.accepted[i].columns.status == Status.Canonical;
      assert SoundRow(content, prepared.accepted[i], op.status);
    }
  }

  lemma IngestionKeepsObserved(content: Content, op: Ingestion)
    requires SoundRows(content, PlanOf(content, Ingesting(op)).rows, op.status)
    ensures
      KeepsObserved(content, PlanOf(content, Ingesting(op)).middle, PlanOf(content, Ingesting(op)).rows, op.status)
  {
    if Ingest(content, op).Success? {
      BeforeUpsertKeepsObserved(content, op, Prepare(content, Ranged(op)));
    } else {
      assert PlanOf(content, Ingesting(op)).rows == [];
    }
  }

  lemma PlanKeepsObserved(content: Content, w: Write)
    requires Genuine(w)
    ensures KeepsObserved(content, PlanOf(content, w).middle, PlanOf(content, w).rows, StatusOf(w))
  {
    PlanIsSound(content, w);
    match w
    case Ingesting(op) => IngestionKeepsObserved(content, op);
    case Inserting(_, _) =>
    case Sweeping(_, _) =>
  }

  lemma ObservedRowsComeBackCanonical(content: Content, middle: Content, rows: seq<Incoming>, status: Status, id: Identity)
    requires ValidContent(content) && OrphansSome(content, middle) && SoundRows(content, rows, status)
    requires KeepsObserved(content, middle, rows, status)
    ensures ComesBackCanonical(Lookup(content, id), Lookup(middle, id), IncomingFor(rows, id))
  {
    PlanFits(content, middle, rows, status, id);
  }

  /** A transaction dates exactly the rows it inserts or changes. */
  lemma DatedExactlyWhenChanged(content: Content, w: Write, id: Identity)
    requires ValidContent(content) && Genuine(w)
    ensures Dated(content, w, id) <==> Lookup(Apply(content, w), id) != Lookup(content, id)
  {
    var plan := PlanOf(content, w);
    ApplyAt(content, w, id);
    PlanIsSound(content, w);
    PlanFits(content, plan.middle, plan.rows, StatusOf(w), id);
    PlanKeepsObserved(content, w);
    ObservedRowsComeBackCanonical(content, plan.middle, plan.rows, StatusOf(w), id);
    RowIsDatedWhenChanged(Lookup(content, id), Lookup(plan.middle, id), IncomingFor(plan.rows, id));
  }

  // ---------------------------------------------------------------- the second time

  lemma {:induction false} CheckStoredDepends(rows: seq<Incoming>, f: Incoming -> bool, g: Incoming -> bool)
    requires forall i | 0 <= i < |rows| :: f(rows[i]) == g(rows[i])
    ensures CheckStored(rows, f) == CheckStored(rows, g)
  {
    if |rows| > 0 {
      CheckStoredDepends(rows[..|rows| - 1], f, g);
    }
  }

  /** The stored event a row is checked against is the same before and after. */
  predicate SameVerdicts(content: Content, after: Content, rows: seq<Incoming>) {
    forall i | 0 <= i < |rows| :: MatchesStored(content, rows[i]) == MatchesStored(after, rows[i])
  }

  lemma PrepareAgain(content: Content, after: Content, batch: Batch)
    requires SameVerdicts(content, after, Dedupe(batch.accepted, SameEvent).accepted)
    ensures Prepare(after, batch) == Prepare(content, batch)
  {
    CheckStoredDepends(
      Dedupe(batch.accepted, SameEvent).accepted, row => MatchesStored(content, row), row => MatchesStored(after, row));
  }

  /** Checking a row against what its event became gives the same answer. */
  lemma VerdictStays(stored: Option<Columns>, after: Option<Columns>, row: Incoming)
    requires stored.Some? ==> after.Some? && Continues(stored.value, after.value)
    requires stored.None? ==> after == Some(row.columns)
    ensures
      (stored.Some? ==> ImmutableMatches(row.identity, stored.value, row.identity, row.columns)) <==>
      (after.Some? ==> ImmutableMatches(row.identity, after.value, row.identity, row.columns))
  {
  }

  lemma FoundAt(rows: seq<Incoming>, row: Incoming)
    requires DistinctIdentities(rows) && row in rows
    ensures IncomingFor(rows, row.identity) == Some(row.columns)
  {
    var i :| 0 <= i < |rows| && rows[i] == row;
    assert Find(rows, row.identity).Some?;
  }

  lemma FitsSettlesTwice(stored: Option<Columns>, middle: Option<Columns>, incoming: Option<Columns>)
    requires Fits(stored, middle, incoming)
    ensures Settle(Settle(middle, incoming), incoming) == Settle(middle, incoming)
  {
    if incoming.Some? {
      MergeIsIdempotent(incoming.value, incoming.value);
      if middle.Some? { MergeIsIdempotent(middle.value, incoming.value); }
    }
  }

  /** The content an upsert of the rows leaves, one identity at a time. */
  ghost predicate SettledFrom(after: Content, middle: Content, rows: seq<Incoming>) {
    forall id :: Lookup(after, id) == Settle(Lookup(middle, id), IncomingFor(rows, id))
  }

  lemma VerdictsStay(content: Content, after: Content, middle: Content, rows: seq<Incoming>, candidates: seq<Incoming>)
    requires SettledFrom(after, middle, rows) && DistinctIdentities(rows) && middle.Keys == content.Keys
    requires forall row | row in candidates && MatchesStored(content, row) :: row in rows
    requires forall id | id in content :: id in after && Continues(content[id], after[id])
    ensures SameVerdicts(content, after, candidates)
  {
    forall i | 0 <= i < |candidates| ensures MatchesStored(content, candidates[i]) == MatchesStored(after, candidates[i]) {
      var row := candidates[i];
      if row.identity !in content {
        FoundAt(rows, row);
        assert Lookup(after, row.identity) == Settle(Lookup(middle, row.identity), IncomingFor(rows, row.identity));
      }
      VerdictStays(Lookup(content, row.identity), Lookup(after, row.identity), row);
    }
  }

  lemma NothingLeftToPromote(after: Content, middle: Content, rows: seq<Incoming>)
    requires SettledFrom(after, middle, rows) && DistinctIdentities(rows)
    ensures !AdvancesCanonical(after, rows)
  {
    forall i | 0 <= i < |rows| && rows[i].columns.status == Status.Canonical ensures IsCanonical(after, rows[i].identity) {
      FoundAt(rows, rows[i]);
      assert Lookup(after, rows[i].identity) == Settle(Lookup(middle, rows[i].identity), IncomingFor(rows, rows[i].identity));
    }
  }

  lemma NothingLeftToRetire(content: Content, op: Ingestion, prepared: Prepared, after: Content, id: Identity)
    requires SettledFrom(after, BeforeUpsert(content, op, prepared), prepared.accepted)
    requires !AdvancesCanonical(after, prepared.accepted)
    ensures Lookup(BeforeUpsert(after, op, prepared), id) == Lookup(after, id)
  {
    FindDecidesIdentities(prepared.accepted, id);
    assert Lookup(after, id) ==
      Settle(Lookup(BeforeUpsert(content, op, prepared), id), IncomingFor(prepared.accepted, id));
  }

  lemma SettledTwice(content: Content, middle: Content, rows: seq<Incoming>, status: Status, after: Content, id: Identity)
    requires ValidContent(content) && OrphansSome(content, middle) && SoundRows(content, rows, status)
    requires SettledFrom(after, middle, rows)
    ensures Settle(Lookup(after, id), IncomingFor(rows, id)) == Lookup(after, id)
  {
    PlanFits(content, middle, rows, status, id);
    FitsSettlesTwice(Lookup(content, id), Lookup(middle, id), IncomingFor(rows, id));
    assert Lookup(after, id) == Settle(Lookup(middle, id), IncomingFor(rows, id));
  }

  /** The same batch is prepared the same way on the content it left. */
  lemma PreparesTheSame(content: Content, op: Ingestion)
    requires ValidContent(content) && FromArchive(op.status, op.batch) && Ingest(content, op).Success?
    ensures Prepare(Apply(content, Ingesting(op)), Ranged(op)) == Prepare(content, Ranged(op))
    ensures SettledFrom(Apply(content, Ingesting(op)), BeforeUpsert(content, op, Prepare(content, Ranged(op))), Prepare(content, Ranged(op)).accepted)
  {
    var w, batch := Ingesting(op), Ranged(op);
    var after, prepared := Apply(content, w), Prepare(content, batch);
    var middle := BeforeUpsert(content, op, prepared);
    PlanIsSound(content, w);
    forall id ensures Lookup(after, id) == Settle(Lookup(middle, id), IncomingFor(prepared.accepted, id)) {
      ApplyAt(content, w, id);
    }
    forall id | id in content ensures id in after && Continues(content[id], after[id]) {
      StepKeepsRow(content, w, id);
    }
    CheckStoredFilters(Dedupe(batch.accepted, SameEvent).accepted, row => MatchesStored(content, row));
    VerdictsStay(content, after, middle, prepared.accepted, Dedupe(batch.accepted, SameEvent).accepted);
    PrepareAgain(content, after, batch);
  }

  lemma ReingestChangesNothing(content: Content, op: Ingestion, id: Identity)
    requires ValidContent(content) && FromArchive(op.status, op.batch) && Ingest(content, op).Success?
    ensures ValidContent(Apply(content, Ingesting(op)))
    ensures
      var after := Apply(content, Ingesting(op));
      Lookup(Apply(after, Ingesting(op)), id) == Lookup(after, id)
  {
    var w, after, prepared := Ingesting(op), Apply(content, Ingesting(op)), Prepare(content, Ranged(op));
    var middle := BeforeUpsert(content, op, prepared);
    PreparesTheSame(content, op);
    PlanIsSound(content, w);
    NothingLeftToPromote(after, middle, prepared.accepted);
    NothingLeftToRetire(content, op, prepared, after, id);
    SettledTwice(content, middle, prepared.accepted, op.status, after, id);
    StepKeepsTable(content, w);
    ApplyAt(after, w, id);
  }

  /** Ingesting a batch a second time touches and changes no event row. */
  lemma ReingestTouchesNothing(content: Content, op: Ingestion)
    requires ValidContent(content) && FromArchive(op.status, op.batch) && Ingest(content, op).Success?
    ensures
      var after := Apply(content, Ingesting(op));
      && Apply(after, Ingesting(op)) == after
      && forall id :: !Dated(after, Ingesting(op), id)
  {
    var w, after := Ingesting(op), Apply(content, Ingesting(op));
    forall id ensures Lookup(Apply(after, w), id) == Lookup(after, id) && !Dated(after, w, id) {
      ReingestChangesNothing(content, op, id);
      DatedExactlyWhenChanged(after, w, id);
    }
    SameLookups(Apply(after, w), after);
  }

  lemma SameLookups(a: Content, b: Content)
    requires forall id :: Lookup(a, id) == Lookup(b, id)
    ensures a == b
  {
    forall id ensures id in a <==> id in b {
      assert Lookup(a, id) == Lookup(b, id);
    }
    forall id | id in a ensures a[id] == b[id] {
      assert Lookup(a, id) == Lookup(b, id);
    }
  }
}
