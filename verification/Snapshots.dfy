/**
 A complete pending snapshot that replaces the pending branch. A snapshot without any
 rejection keeps every event it shows, retires the pending rows it does not show, and
 leaves as pending exactly what it shows apart from rows that were canonical already;
 a snapshot with a rejection changes nothing.
 */
module Snapshots {
  import opened Wrappers
  import opened Texts
  import opened Json
  import opened Rows
  import opened Validation
  import opened BlockOrder
  import opened Batches
  import opened Transactions
  import opened Lifecycle

  /** A snapshot with no rejection keeps every event it shows. */
  lemma {:induction false} DedupeKeepsIdentities(rows: seq<Incoming>, matches: (Incoming, Incoming) -> bool, id: Identity)
    requires Dedupe(rows, matches).rejected == []
    ensures id in Identities(Dedupe(rows, matches).accepted) <==> id in Identities(rows)
  {
    if |rows| > 0 {
      var n := |rows| - 1;
      var front := Dedupe(rows[..n], matches);
      assert rows == rows[..n] + [rows[n]];
      DedupeKeepsIdentities(rows[..n], matches, id);
      IdentitiesAppend(rows[..n], rows[n]);
      StepKeepsIdentities(front, rows[n], matches, id);
    }
  }

  lemma StepKeepsIdentities(front: Prepared, row: Incoming, matches: (Incoming, Incoming) -> bool, id: Identity)
    requires DedupeStep(front, row, matches).rejected == []
    ensures id in Identities(DedupeStep(front, row, matches).accepted) <==>
      id in Identities(front.accepted) || id == row.identity
  {
    IdentitiesAppend(front.accepted, row);
    FindDecidesIdentities(front.accepted, row.identity);
  }

  lemma IdentitiesAppend(rows: seq<Incoming>, row: Incoming)
    ensures Identities(rows + [row]) == Identities(rows) + {row.identity}
  {
    assert (rows + [row])[|rows|] == row;
    assert forall i | 0 <= i < |rows| :: (rows + [row])[i] == rows[i];
  }

  lemma {:induction false} CheckKeepsAll(rows: seq<Incoming>, matches: Incoming -> bool)
    requires CheckStored(rows, matches).rejected == []
    ensures CheckStored(rows, matches).accepted == rows
  {
    if |rows| > 0 {
      var n := |rows| - 1;
      CheckKeepsAll(rows[..n], matches);
      assert matches(rows[n]) && rows == rows[..n] + [rows[n]];
    }
  }

  lemma CleanBatchKeepsIdentities(content: Content, batch: Batch)
    requires Prepare(content, batch).rejected == []
    ensures batch.rejected == []
    ensures Identities(Prepare(content, batch).accepted) == Identities(batch.accepted)
  {
    var unique := Dedupe(batch.accepted, SameEvent);
    var matches := row => MatchesStored(content, row);
    var checked := CheckStored(unique.accepted, matches);
    assert Prepare(content, batch) == Prepared(checked.accepted, batch.rejected + unique.rejected + checked.rejected, unique.dropped);
    CheckKeepsAll(unique.accepted, matches);
    forall id ensures id in Identities(unique.accepted) <==> id in Identities(batch.accepted) {
      DedupeKeepsIdentities(batch.accepted, SameEvent, id);
    }
  }

  /** Arguments of a replacing ingestion of the selected pending branch. */
  predicate ReplacesPending(op: Ingestion) {
    op.status == Pending && op.completeRange.Some? && op.replacePendingBranch
  }

  /** The rows a replacing snapshot retires. */
  lemma RetiresTheRest(content: Content, op: Ingestion, prepared: Prepared, id: Identity)
    requires ReplacesPending(op) && prepared.rejected == [] && ValidContent(content)
    requires !AdvancesCanonical(content, prepared.accepted)
    ensures
      var middle := BeforeUpsert(content, op, prepared);
      if IsPending(content, id) && id !in Identities(prepared.accepted) then
        Lookup(middle, id) == Some(content[id].(status := Orphaned))
      else Lookup(middle, id) == Lookup(content, id)
  {
    var observed := Identities(prepared.accepted);
    assert BeforeUpsert(content, op, prepared) == RetireAbsent(content, WHOLE_CHAIN, observed);
    HeightsFit(content);
    RetiredAt(content, observed, id);
  }

  predicate OnTheChain(content: Content) {
    forall id | id in content :: Between(content[id].blockHeight, WHOLE_CHAIN)
  }

  lemma HeightsFit(content: Content)
    requires ValidContent(content)
    ensures OnTheChain(content)
  {
  }

  lemma RetiredAt(content: Content, observed: set<Identity>, id: Identity)
    requires OnTheChain(content)
    ensures
      var middle := RetireAbsent(content, WHOLE_CHAIN, observed);
      if IsPending(content, id) && id !in observed then Lookup(middle, id) == Some(content[id].(status := Orphaned))
      else Lookup(middle, id) == Lookup(content, id)
  {
  }

  lemma PendingNeverAdvances(content: Content, rows: seq<Incoming>)
    requires ValidRows(rows, Pending)
    ensures !AdvancesCanonical(content, rows)
  {
    forall i | 0 <= i < |rows| ensures rows[i].columns.status == Pending {
      assert ValidRow(rows[i], Pending);
    }
  }

  lemma SoundRowsAreValid(content: Content, rows: seq<Incoming>, status: Status)
    requires SoundRows(content, rows, status)
    ensures ValidRows(rows, status)
  {
    forall i | 0 <= i < |rows| ensures ValidRow(rows[i], status) {
      assert SoundRow(content, rows[i], status);
    }
  }

  /**
   After a successful replacing snapshot a row is pending exactly when the snapshot,
   cut to its complete range, shows it and it was not already canonical.
   */
  lemma PendingRowsAreTheSnapshot(content: Content, op: Ingestion, id: Identity)
    requires ValidContent(content) && FromArchive(op.status, op.batch)
    requires ReplacesPending(op) && Ingest(content, op).Success?
    ensures
      IsPending(Ingest(content, op).value.content, id) <==>
      id in Identities(Ranged(op).accepted) && !IsCanonical(content, id)
  {
    var prepared, w := Prepare(content, Ranged(op)), Ingesting(op);
    var middle := BeforeUpsert(content, op, prepared);
    assert prepared.rejected == [] && PlanOf(content, w) == Plan(middle, prepared.accepted);
    CleanBatchKeepsIdentities(content, Ranged(op));
    PlanIsSound(content, w);
    SoundRowsAreValid(content, prepared.accepted, Pending);
    PendingNeverAdvances(content, prepared.accepted);
    RetiresTheRest(content, op, prepared, id);
    PlanFits(content, middle, prepared.accepted, Pending, id);
    ApplyAt(content, w, id);
  }

  /** A replacing snapshot with any rejection fails and leaves every row as it was. */
  lemma RejectedSnapshotChangesNothing(content: Content, op: Ingestion)
    requires ReplacesPending(op) && Prepare(content, Ranged(op)).rejected != []
    ensures Ingest(content, op).Failure? && Apply(content, Ingesting(op)) == content
  {
  }
}
