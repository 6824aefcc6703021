/**
 The event table with its change sequence. Every writing transaction of
 EventsRepository is a method whose content is the one Transactions specifies and
 whose change sequences satisfy Stamped: a row takes a new number exactly when a
 column of it changes.
 */
module EventStore {
  import opened Wrappers
  import opened Texts
  import opened Json
  import opened Rows
  import opened Validation
  import opened BlockOrder
  import opened Batches
  import opened Transactions
  import opened Lifecycle
  import opened Reingestion
  import Preparation
  import Ingestions

  datatype Row = Row(id: nat, changeSequence: nat, columns: Columns)

  /** The committed state of the database: rows, sequence values handed out, cursors. */
  datatype Table = Table(rows: map<Identity, Row>, sequence: nat, lastId: nat, cursors: map<Text, int>)

  function ContentOf(rows: map<Identity, Row>): (c: Content)
    ensures c.Keys == rows.Keys
  {
    map id | id in rows :: rows[id].columns
  }

  /** Row ids and change sequences are unique and were handed out. */
  ghost predicate WellNumbered(t: Table) {
    && (forall i | i in t.rows :: 1 <= t.rows[i].changeSequence <= t.sequence && 1 <= t.rows[i].id <= t.lastId)
    && (forall i, j | i in t.rows && j in t.rows && i != j :: Apart(t.rows, i, j))
  }

  predicate Apart(rows: map<Identity, Row>, i: Identity, j: Identity)
    requires i in rows && j in rows
  {
    rows[i].changeSequence != rows[j].changeSequence && rows[i].id != rows[j].id
  }

  /** A row is either exactly as before or newer than everything before. */
  predicate StampedRow(before: Table, after: Table, id: Identity)
    requires id in after.rows
  {
    if id in before.rows && after.rows[id].columns == before.rows[id].columns then after.rows[id] == before.rows[id]
    else
      && before.sequence < after.rows[id].changeSequence <= after.sequence
      && (if id in before.rows then after.rows[id].id == before.rows[id].id
          else before.lastId < after.rows[id].id <= after.lastId)
  }

  /** The numbering rule of a statement or a transaction. */
  ghost predicate Stamped(before: Table, after: Table) {
    && before.sequence <= after.sequence && before.lastId <= after.lastId
    && before.rows.Keys <= after.rows.Keys
    && forall id | id in after.rows :: StampedRow(before, after, id)
  }

  /** No row changes and changes back on the way. */
  ghost predicate NoDetour(before: Table, middle: Table, after: Table) {
    forall id | id in before.rows && id in middle.rows && id in after.rows ::
      after.rows[id].columns == before.rows[id].columns ==> middle.rows[id].columns == before.rows[id].columns
  }

  /** Statements compose to a transaction that still numbers exactly the changed rows. */
  lemma StampedCompose(before: Table, middle: Table, after: Table)
    requires Stamped(before, middle) && Stamped(middle, after) && NoDetour(before, middle, after)
    ensures Stamped(before, after)
  {
    forall id | id in after.rows ensures StampedRow(before, after, id) {
      assert StampedRow(middle, after, id);
      if id in middle.rows { assert StampedRow(before, middle, id); }
    }
  }

  predicate SameRow(before: map<Identity, Row>, after: map<Identity, Row>, id: Identity) {
    (id in before <==> id in after) && (id in after ==> after[id] == before[id])
  }

  /** One row was written, if anything. */
  ghost predicate WritesOne(before: Table, after: Table, id: Identity) {
    && before.sequence <= after.sequence && before.lastId <= after.lastId
    && after.rows.Keys == before.rows.Keys + {id}
    && (forall other | other in before.rows && other != id :: after.rows[other] == before.rows[other])
    && StampedRow(before, after, id)
  }

  class Store {
    var rows: map<Identity, Row>
    var sequence: nat
    var lastId: nat
    var cursors: map<Text, int>

    ghost function Snapshot(): Table
      reads this
    {
      Table(rows, sequence, lastId, cursors)
    }

    ghost predicate Valid()
      reads this
    {
      WellNumbered(Snapshot()) && ValidContent(ContentOf(rows))
    }

    constructor ()
      ensures Valid() && rows == map[] && cursors == map[]
    {
      rows, sequence, lastId, cursors := map[], 0, 0, map[];
    }

    method NextSequence() returns (n: nat)
      modifies this`sequence
      ensures n == sequence == old(sequence) + 1
    {
      sequence := sequence + 1;
      n := sequence;
    }

    /** UPDATE of one row: the trigger numbers it when a column changes. */
    method UpdateRow(id: Identity, columns: Columns)
      requires id in rows
      modifies this`rows, this`sequence
      ensures WritesOne(old(Snapshot()), Snapshot(), id) && rows[id].columns == columns
    {
      if TriggerFires(rows[id].columns, columns) {
        var n := NextSequence();
        rows := rows[id := Row(rows[id].id, n, columns)];
      }
    }

    /** INSERT of one row: the column default and the trigger each draw a number. */
    method InsertRow(id: Identity, columns: Columns)
      requires id !in rows
      modifies this`rows, this`sequence, this`lastId
      ensures WritesOne(old(Snapshot()), Snapshot(), id) && rows[id].columns == columns
    {
      var default_ := NextSequence();
      var n := NextSequence();
      lastId := lastId + 1;
      rows := rows[id := Row(lastId, n, columns)];
    }

    /** INSERT ... ON CONFLICT DO UPDATE of one row: an attempt draws numbers even when it conflicts. */
    method UpsertRow(row: Incoming)
      modifies this`rows, this`sequence, this`lastId
      ensures WritesOne(old(Snapshot()), Snapshot(), row.identity)
      ensures rows[row.identity].columns == Resolve(Lookup(old(ContentOf(rows)), row.identity), row.columns)
    {
      if row.identity !in rows {
        InsertRow(row.identity, row.columns);
      } else {
        sequence, lastId := sequence + 2, lastId + 1;
        var stored := rows[row.identity].columns;
        if ConflictGuard(stored, row.columns) {
          UpdateRow(row.identity, Merge(stored, row.columns));
        }
      }
    }

    /** One row of an orphaning update. */
    method OrphanRow(ghost before: Table, ghost done: set<Identity>, id: Identity)
      requires Orphaning(before, Snapshot(), done) && id in rows && id !in done
      modifies this`rows, this`sequence
      ensures Orphaning(before, Snapshot(), done + {id})
    {
      ghost var middle := Snapshot();
      UpdateRow(id, rows[id].columns.(status := Orphaned));
      OrphansOneMore(before, middle, Snapshot(), done, id);
    }

    /** UPDATE ... SET status = 'orphaned' of chosen rows, in whatever order the database takes them. */
    method OrphanRows(chosen: set<Identity>)
      requires WellNumbered(Snapshot()) && chosen <= rows.Keys
      modifies this`rows, this`sequence
      ensures Orphaning(old(Snapshot()), Snapshot(), chosen)
    {
      ghost var before := Snapshot();
      NothingOrphaned(before);
      var done := {};
      while done != chosen
        invariant done <= chosen && Orphaning(before, Snapshot(), done)
        decreases chosen - done
      {
        var id :| id in chosen && id !in done;
        OrphanRow(before, done, id);
        done := done + {id};
      }
    }

    /** One row of an upsert. */
    method UpsertNext(ghost before: Table, accepted: seq<Incoming>, n: nat)
      requires n < |accepted| && DistinctIdentities(accepted) && Upserting(before, Snapshot(), accepted, n)
      modifies this`rows, this`sequence, this`lastId
      ensures Upserting(before, Snapshot(), accepted, n + 1)
    {
      ghost var middle := Snapshot();
      UpsertRow(accepted[n]);
      UpsertsOneMore(before, middle, Snapshot(), accepted, n);
    }

    /** upsertAccepted: one statement for all rows. */
    method UpsertAccepted(accepted: seq<Incoming>)
      requires WellNumbered(Snapshot()) && DistinctIdentities(accepted)
      modifies this`rows, this`sequence, this`lastId
      ensures Upserting(old(Snapshot()), Snapshot(), accepted, |accepted|)
    {
      ghost var before := Snapshot();
      NothingUpserted(before, accepted);
      for n := 0 to |accepted|
        invariant Upserting(before, Snapshot(), accepted, n)
      {
        UpsertNext(before, accepted, n);
      }
    }

    // -------------------------------------------------------------- transactions

    /** advanceCursor: cursors only grow. */
    method AdvanceCursor(cursorName: Text, blockHeight: int)
      modifies this`cursors
      ensures cursors == Advanced(old(cursors), cursorName, blockHeight)
    {
      if cursorName !in cursors || cursors[cursorName] < blockHeight {
        cursors := cursors[cursorName := blockHeight];
      }
    }

    /** The orphaning updates of an ingestion. */
    method OrphanBeforeUpsert(op: Ingestion, prepared: Prepared)
      requires WellNumbered(Snapshot())
      modifies this`rows, this`sequence
      ensures OrphansFor(old(Snapshot()), Snapshot(), op, prepared)
    {
      ghost var before := Snapshot();
      NothingOrphaned(before);
      if AdvancesCanonical(ContentOf(rows), prepared.accepted) {
        OrphanRows(PendingIds(ContentOf(rows)));
      }
      ghost var middle := Snapshot();
      if Retires(op, prepared) {
        var range := if op.replacePendingBranch then WHOLE_CHAIN else op.completeRange.value;
        OrphanRows(AbsentIds(ContentOf(rows), range, Identities(prepared.accepted)));
      } else {
        NothingOrphaned(middle);
      }
      OrphansForIngestion(before, middle, Snapshot(), op, prepared);
    }

    /** The statements of an ingestion after the checks; an error rolls the rows back. */
    method StoreIngestion(op: Ingestion, prepared: Prepared) returns (reason: Option<Abort>)
      requires WellNumbered(Snapshot()) && DistinctIdentities(prepared.accepted)
      modifies this`rows, this`sequence, this`lastId
      ensures reason == StatementError(op, prepared)
      ensures reason.None? ==> Executes(old(Snapshot()), Snapshot(), op, prepared)
      ensures reason.Some? ==> RollsBack(old(Snapshot()), Snapshot())
    {
      var saved := rows;
      OrphanBeforeUpsert(op, prepared);
      reason := ErrorBeforeUpsert(op, prepared);
      if reason.None? {
        ghost var middle := Snapshot();
        UpsertAccepted(prepared.accepted);
        ExecutesBy(old(Snapshot()), middle, Snapshot(), op, prepared);
        if !FitsInt4(op.blockHeight) {
          reason := Some(OutOfRange);
        }
      }
      if reason.Some? {
        rows := saved;
      }
    }

    /** The transaction of an ingestion up to the cursor. */
    method TryIngestion(op: Ingestion) returns (prepared: Prepared, reason: Option<Abort>)
      requires WellNumbered(Snapshot())
      modifies this`rows, this`sequence, this`lastId
      ensures prepared == Prepare(old(ContentOf(rows)), Ranged(op))
      ensures reason == AbortReason(old(ContentOf(rows)), op, prepared)
      ensures reason.None? ==> Executes(old(Snapshot()), Snapshot(), op, prepared)
      ensures reason.Some? ==> RollsBack(old(Snapshot()), Snapshot())
    {
      prepared := Preparation.PrepareBatch(ContentOf(rows), Ranged(op));
      if ContradictsAncestry(ContentOf(rows), op.ancestry) {
        reason := Some(ContradictedAncestry);
      } else {
        reason := StoreIngestion(op, prepared);
      }
    }

    /**
     ingestRawEventsAndAdvanceCursor. A transaction that aborts leaves rows and cursors
     alone; only the sequence values it drew are lost.
     */
    method Ingest(op: Ingestion) returns (r: Result<Stored, Abort>)
      requires Valid() && FromArchive(op.status, op.batch)
      modifies this
      ensures Valid() && Ingests(old(Snapshot()), Snapshot(), op, r)
      ensures r.Success? ==> Ingestions.OnSelectedChain(old(ContentOf(rows)), op.ancestry)
      ensures r == Failure(ContradictedAncestry) ==> !Ingestions.OnSelectedChain(old(ContentOf(rows)), op.ancestry)
      ensures r.Success? ==> op.cursorName in cursors && cursors[op.cursorName] >= op.blockHeight
    {
      ghost var before := Snapshot();
      Ingestions.IngestionGoesThroughExactly(ContentOf(rows), op);
      if !GoodArguments(op) {
        r := Failure(BadArguments);
        AbortIngests(before, before, op, BadArguments);
      } else {
        var prepared, reason := TryIngestion(op);
        if reason.Some? {
          r := Failure(reason.value);
          AbortIngests(before, Snapshot(), op, reason.value);
        } else {
          r := Success(Stored(ContentOf(rows), prepared.accepted, prepared.rejected));
          ghost var executed := Snapshot();
          AdvanceCursor(op.cursorName, op.blockHeight);
          ExecutionIngests(before, executed, Snapshot(), op, prepared);
        }
      }
      IngestsKeepsTable(before, Snapshot(), op, r);
    }

    /** insertRawEvents. */
    method Insert(status: Status, batch: Batch) returns (r: Result<Stored, Abort>)
      requires Valid() && FromArchive(status, batch)
      modifies this
      ensures Valid() && Inserts(old(Snapshot()), Snapshot(), status, batch, r)
    {
      ghost var before := Snapshot();
      var prepared := Preparation.PrepareBatch(ContentOf(rows), batch);
      if AllStorable(prepared.accepted) {
        UpsertAccepted(prepared.accepted);
        r := Success(Stored(ContentOf(rows), prepared.accepted, prepared.rejected));
        UpsertInserts(before, Snapshot(), status, batch, prepared);
      } else {
        r := Failure(OutOfRange);
        RefusalInserts(before, status, batch);
      }
      InsertsKeepsTable(before, Snapshot(), status, batch, r);
    }

    /** markPendingAsOrphaned. */
    method MarkPendingAsOrphaned(canonicalCursor: nat, orphanDepthBlocks: nat) returns (affected: nat)
      requires Valid()
      modifies this
      ensures Valid() && Commits(old(Snapshot()), Snapshot(), Sweeping(canonicalCursor, orphanDepthBlocks))
      ensures cursors == old(cursors)
      ensures rows.Keys == old(rows).Keys && affected == |ChangedIds(old(rows), rows)|
      ensures forall id | id in rows :: rows[id].columns == SweptColumns(old(rows)[id].columns, canonicalCursor, orphanDepthBlocks)
    {
      ghost var before := rows;
      StepKeepsTable(ContentOf(rows), Sweeping(canonicalCursor, orphanDepthBlocks));
      SweepOrphans(ContentOf(rows), canonicalCursor, orphanDepthBlocks);
      var swept := SweptIds(ContentOf(rows), canonicalCursor, orphanDepthBlocks);
      OrphanRows(swept);
      affected := |swept|;
      SweptAreChanged(before, rows, swept, canonicalCursor, orphanDepthBlocks);
    }

    /** setCursor. */
    method SetCursor(cursorName: Text, blockHeight: nat)
      requires Valid()
      modifies this`cursors
      ensures Valid() && cursors == Advanced(old(cursors), cursorName, blockHeight)
    {
      AdvanceCursor(cursorName, blockHeight);
    }
  }

  // ---------------------------------------------------------------- statements, row by row

  /** A statement writes each row at most once. */
  lemma OneMoreRow(before: Table, middle: Table, after: Table, id: Identity)
    requires Stamped(before, middle) && WritesOne(middle, after, id) && SameRow(before.rows, middle.rows, id)
    ensures Stamped(before, after)
  {
    forall other | other in after.rows ensures StampedRow(before, after, other) {
      if other != id { assert StampedRow(before, middle, other); }
    }
  }

  lemma StillNumbered(before: Table, after: Table, id: Identity)
    requires WellNumbered(before) && WritesOne(before, after, id)
    ensures WellNumbered(after)
  {
    forall i, j | i in after.rows && j in after.rows && i != j ensures Apart(after.rows, i, j) {
      assert i != id ==> after.rows[i] == before.rows[i];
      assert j != id ==> after.rows[j] == before.rows[j];
      assert i in before.rows && j in before.rows ==> Apart(before.rows, i, j);
    }
  }

  /** Chosen rows turned orphaned. */
  function OrphanChosen(content: Content, chosen: set<Identity>): (r: Content)
    ensures r.Keys == content.Keys
    ensures forall id | id in content :: r[id] == if id in chosen then content[id].(status := Orphaned) else content[id]
  {
    map id | id in content :: if id in chosen then content[id].(status := Orphaned) else content[id]
  }

  /** An orphaning update that has dealt with some rows. */
  ghost predicate Orphaning(before: Table, now: Table, done: set<Identity>) {
    && WellNumbered(now) && Stamped(before, now) && now.rows.Keys == before.rows.Keys && now.cursors == before.cursors
    && (forall id | id in before.rows && id !in done :: now.rows[id] == before.rows[id])
    && ContentOf(now.rows) == OrphanChosen(ContentOf(before.rows), done)
  }

  lemma NothingOrphaned(before: Table)
    requires WellNumbered(before)
    ensures Orphaning(before, before, {})
  {
  }

  lemma OrphansOneMore(before: Table, middle: Table, after: Table, done: set<Identity>, id: Identity)
    requires Orphaning(before, middle, done) && id in before.rows && id !in done && after.cursors == middle.cursors
    requires WritesOne(middle, after, id) && after.rows[id].columns == middle.rows[id].columns.(status := Orphaned)
    ensures Orphaning(before, after, done + {id})
  {
    assert Stamped(before, after) by { OneMoreRow(before, middle, after, id); }
    assert WellNumbered(after) by { StillNumbered(middle, after, id); }
    assert after.rows.Keys == before.rows.Keys;
    assert ContentOf(after.rows) == OrphanChosen(ContentOf(before.rows), done + {id}) by {
      OrphanNextContent(before.rows, middle.rows, after.rows, done, id);
    }
  }

  lemma OrphanNextContent(
    before: map<Identity, Row>, middle: map<Identity, Row>, after: map<Identity, Row>, done: set<Identity>, id: Identity)
    requires ContentOf(middle) == OrphanChosen(ContentOf(before), done) && id in before && id !in done
    requires after.Keys == middle.Keys && after[id].columns == middle[id].columns.(status := Orphaned)
    requires forall other | other in middle && other != id :: after[other] == middle[other]
    ensures ContentOf(after) == OrphanChosen(ContentOf(before), done + {id})
  {
    var b, m, a := ContentOf(before), ContentOf(middle), ContentOf(after);
    forall other | other in a
      ensures a[other] == if other in done + {id} then b[other].(status := Orphaned) else b[other]
    {
      assert other != id ==> a[other] == m[other];
    }
  }

  /** An upsert that has dealt with the first n rows. */
  ghost predicate Upserting(before: Table, now: Table, rows: seq<Incoming>, n: nat) {
    && n <= |rows| && WellNumbered(now) && Stamped(before, now) && now.cursors == before.cursors
    && (forall i | n <= i < |rows| :: SameRow(before.rows, now.rows, rows[i].identity))
    && ContentOf(now.rows) == Upsert(ContentOf(before.rows), rows[..n])
  }

  lemma NothingUpserted(before: Table, rows: seq<Incoming>)
    requires WellNumbered(before)
    ensures Upserting(before, before, rows, 0)
  {
  }

  lemma UpsertsOneMore(before: Table, middle: Table, after: Table, rows: seq<Incoming>, n: nat)
    requires n < |rows| && DistinctIdentities(rows) && Upserting(before, middle, rows, n) && after.cursors == middle.cursors
    requires WritesOne(middle, after, rows[n].identity)
    requires after.rows[rows[n].identity].columns ==
      Resolve(Lookup(ContentOf(middle.rows), rows[n].identity), rows[n].columns)
    ensures Upserting(before, after, rows, n + 1)
  {
    OneMoreRow(before, middle, after, rows[n].identity);
    StillNumbered(middle, after, rows[n].identity);
    UpsertNextContent(ContentOf(before.rows), ContentOf(middle.rows), ContentOf(after.rows), rows, n);
  }

  lemma UpsertNextContent(before: Content, middle: Content, after: Content, rows: seq<Incoming>, n: nat)
    requires n < |rows| && middle == Upsert(before, rows[..n]) && after.Keys == middle.Keys + {rows[n].identity}
    requires forall other | other in middle && other != rows[n].identity :: after[other] == middle[other]
    requires after[rows[n].identity] == Resolve(Lookup(middle, rows[n].identity), rows[n].columns)
    ensures after == Upsert(before, rows[..n + 1])
  {
    assert rows[..n + 1][..n] == rows[..n];
  }

  // ---------------------------------------------------------------- transactions

  function Advanced(cursors: map<Text, int>, cursorName: Text, blockHeight: int): (r: map<Text, int>)
    ensures cursorName in r && r[cursorName] >= blockHeight
    ensures forall name | name in cursors :: name in r && r[name] >= cursors[name]
    ensures forall name | name in r && name != cursorName :: name in cursors && r[name] == cursors[name]
    ensures r[cursorName] == blockHeight || (cursorName in cursors && r[cursorName] == cursors[cursorName])
  {
    if cursorName in cursors && cursors[cursorName] >= blockHeight then cursors else cursors[cursorName := blockHeight]
  }

  /** What a transaction, committed or aborted, makes of rows and numbers. */
  ghost predicate Commits(before: Table, after: Table, w: Write) {
    Stamped(before, after) && WellNumbered(after) && ContentOf(after.rows) == Apply(ContentOf(before.rows), w)
  }

  ghost predicate OrphansFor(before: Table, after: Table, op: Ingestion, prepared: Prepared) {
    && Stamped(before, after) && WellNumbered(after) && after.cursors == before.cursors
    && ContentOf(after.rows) == BeforeUpsert(ContentOf(before.rows), op, prepared)
  }

  function PendingIds(content: Content): set<Identity> {
    set id | id in content && content[id].status == Pending
  }

  function AbsentIds(content: Content, range: Range, observed: set<Identity>): set<Identity> {
    set id | id in content && id !in observed && content[id].status == Pending && Between(content[id].blockHeight, range)
  }

  lemma OrphanPendingIds(content: Content)
    ensures OrphanChosen(content, PendingIds(content)) == OrphanAllPending(content)
  {
  }

  lemma OrphanAbsentIds(content: Content, range: Range, observed: set<Identity>)
    ensures OrphanChosen(content, AbsentIds(content, range, observed)) == RetireAbsent(content, range, observed)
  {
  }

  /** The rows an ingestion orphans by its first update, and then by its second. */
  function FirstOrphans(content: Content, prepared: Prepared): set<Identity> {
    if AdvancesCanonical(content, prepared.accepted) then PendingIds(content) else {}
  }

  function SecondOrphans(content: Content, op: Ingestion, prepared: Prepared): set<Identity> {
    if Retires(op, prepared) then
      AbsentIds(
        content, if op.replacePendingBranch then WHOLE_CHAIN else op.completeRange.value, Identities(prepared.accepted))
    else {}
  }

  lemma OrphanNone(content: Content)
    ensures OrphanChosen(content, {}) == content
  {
  }

  lemma OrphansAreBeforeUpsert(content: Content, op: Ingestion, prepared: Prepared)
    ensures
      var middle := OrphanChosen(content, FirstOrphans(content, prepared));
      OrphanChosen(middle, SecondOrphans(middle, op, prepared)) == BeforeUpsert(content, op, prepared)
  {
    var middle := OrphanChosen(content, FirstOrphans(content, prepared));
    OrphanPendingIds(content);
    OrphanNone(content);
    OrphanNone(middle);
    if Retires(op, prepared) {
      OrphanAbsentIds(
        middle, if op.replacePendingBranch then WHOLE_CHAIN else op.completeRange.value, Identities(prepared.accepted));
    }
  }

  lemma OrphansNeverReturn(before: Table, middle: Table, after: Table, first: set<Identity>, second: set<Identity>)
    requires Orphaning(before, middle, first) && Orphaning(middle, after, second)
    requires first <= PendingIds(ContentOf(before.rows))
    ensures NoDetour(before, middle, after)
  {
    var b, m, a := ContentOf(before.rows), ContentOf(middle.rows), ContentOf(after.rows);
    forall id | id in before.rows && after.rows[id].columns == before.rows[id].columns
      ensures middle.rows[id].columns == before.rows[id].columns
    {
      assert m[id] == OrphanChosen(b, first)[id] && a[id] == OrphanChosen(m, second)[id];
    }
  }

  lemma OrphansForIngestion(before: Table, middle: Table, after: Table, op: Ingestion, prepared: Prepared)
    requires Orphaning(before, middle, FirstOrphans(ContentOf(before.rows), prepared))
    requires Orphaning(middle, after, SecondOrphans(ContentOf(middle.rows), op, prepared))
    ensures OrphansFor(before, after, op, prepared)
  {
    OrphansNeverReturn(
      before, middle, after, FirstOrphans(ContentOf(before.rows), prepared), SecondOrphans(ContentOf(middle.rows), op, prepared));
    StampedCompose(before, middle, after);
    OrphansAreBeforeUpsert(ContentOf(before.rows), op, prepared);
  }

  /** A row the transaction leaves as it was is not changed and changed back. */
  lemma NoRowComesBack(content: Content, w: Write, id: Identity)
    requires ValidContent(content) && Genuine(w)
    ensures Lookup(Apply(content, w), id) == Lookup(content, id) ==> Lookup(PlanOf(content, w).middle, id) == Lookup(content, id)
  {
    DatedExactlyWhenChanged(content, w, id);
  }

  lemma PlanCommits(before: Table, middle: Table, after: Table, w: Write)
    requires ValidContent(ContentOf(before.rows)) && Genuine(w)
    requires Stamped(before, middle) && ContentOf(middle.rows) == PlanOf(ContentOf(before.rows), w).middle
    requires
      var rows := PlanOf(ContentOf(before.rows), w).rows;
      Upserting(middle, after, rows, |rows|)
    ensures Commits(before, after, w)
  {
    var content, rows := ContentOf(before.rows), PlanOf(ContentOf(before.rows), w).rows;
    assert rows[..|rows|] == rows;
    assert ContentOf(after.rows) == Apply(content, w);
    PlanHasNoDetour(before, middle, after, w);
    StampedCompose(before, middle, after);
  }

  lemma SameTableStamped(t: Table)
    ensures Stamped(t, t)
  {
  }

  /** An insertion without cursor movement: the specified result and the specified rows. */
  ghost predicate Inserts(before: Table, after: Table, status: Status, batch: Batch, r: Result<Stored, Abort>) {
    && Commits(before, after, Inserting(status, batch))
    && r == Transactions.Insert(ContentOf(before.rows), batch) && after.cursors == before.cursors
  }

  lemma UpsertInserts(before: Table, after: Table, status: Status, batch: Batch, prepared: Prepared)
    requires ValidContent(ContentOf(before.rows)) && FromArchive(status, batch)
    requires prepared == Prepare(ContentOf(before.rows), batch) && AllStorable(prepared.accepted)
    requires Upserting(before, after, prepared.accepted, |prepared.accepted|)
    ensures Inserts(before, after, status, batch, Success(Stored(ContentOf(after.rows), prepared.accepted, prepared.rejected)))
  {
    SameTableStamped(before);
    assert PlanOf(ContentOf(before.rows), Inserting(status, batch)) == Plan(ContentOf(before.rows), prepared.accepted);
    PlanCommits(before, before, after, Inserting(status, batch));
  }

  lemma RefusalInserts(before: Table, status: Status, batch: Batch)
    requires WellNumbered(before) && !AllStorable(Prepare(ContentOf(before.rows), batch).accepted)
    ensures Inserts(before, before, status, batch, Failure(OutOfRange))
  {
    SameTableStamped(before);
  }

  lemma InsertsKeepsTable(before: Table, after: Table, status: Status, batch: Batch, r: Result<Stored, Abort>)
    requires ValidContent(ContentOf(before.rows)) && FromArchive(status, batch) && Inserts(before, after, status, batch, r)
    ensures WellNumbered(after) && ValidContent(ContentOf(after.rows))
  {
    StepKeepsTable(ContentOf(before.rows), Inserting(status, batch));
  }

  /** Rows as before; sequence values may have been drawn. */
  ghost predicate RollsBack(before: Table, after: Table) {
    && after.rows == before.rows && after.cursors == before.cursors
    && before.sequence <= after.sequence && before.lastId <= after.lastId
  }

  /** An ingestion: the specified result, the specified rows, and cursors that only grow. */
  ghost predicate Ingests(before: Table, after: Table, op: Ingestion, r: Result<Stored, Abort>) {
    && Commits(before, after, Ingesting(op))
    && r == Transactions.Ingest(ContentOf(before.rows), op)
    && after.cursors == if r.Success? then Advanced(before.cursors, op.cursorName, op.blockHeight) else before.cursors
  }

  lemma AbortIngests(before: Table, after: Table, op: Ingestion, reason: Abort)
    requires WellNumbered(before) && RollsBack(before, after)
    requires Transactions.Ingest(ContentOf(before.rows), op) == Failure(reason)
    ensures Ingests(before, after, op, Failure(reason))
  {
    ApplyIsTheTransaction(ContentOf(before.rows), op);
  }

  lemma ExecutionIngests(before: Table, executed: Table, after: Table, op: Ingestion, prepared: Prepared)
    requires ValidContent(ContentOf(before.rows)) && FromArchive(op.status, op.batch)
    requires GoodArguments(op) && prepared == Prepare(ContentOf(before.rows), Ranged(op))
    requires AbortReason(ContentOf(before.rows), op, prepared).None? && Executes(before, executed, op, prepared)
    requires after == executed.(cursors := Advanced(executed.cursors, op.cursorName, op.blockHeight))
    ensures Ingests(before, after, op, Success(Stored(ContentOf(after.rows), prepared.accepted, prepared.rejected)))
  {
    ExecutionCommits(before, executed, op, prepared);
    ApplyIsTheTransaction(ContentOf(before.rows), op);
    assert Commits(before, after, Ingesting(op)) by { CommitsIgnoresCursors(before, executed, after, Ingesting(op)); }
  }

  lemma CommitsIgnoresCursors(before: Table, executed: Table, after: Table, w: Write)
    requires Commits(before, executed, w) && after == executed.(cursors := after.cursors)
    ensures Commits(before, after, w)
  {
    forall id | id in after.rows ensures StampedRow(before, after, id) {
      assert StampedRow(before, executed, id);
    }
  }

  lemma IngestsKeepsTable(before: Table, after: Table, op: Ingestion, r: Result<Stored, Abort>)
    requires ValidContent(ContentOf(before.rows)) && FromArchive(op.status, op.batch) && Ingests(before, after, op, r)
    ensures WellNumbered(after) && ValidContent(ContentOf(after.rows))
  {
    StepKeepsTable(ContentOf(before.rows), Ingesting(op));
  }

  function ErrorBeforeUpsert(op: Ingestion, prepared: Prepared): Option<Abort> {
    if op.replacePendingBranch && prepared.rejected != [] then Some(InvalidPendingBranch)
    else if !AllStorable(prepared.accepted) then Some(OutOfRange)
    else None
  }

  /** The reasons to abort that do not depend on stored rows. */
  function StatementError(op: Ingestion, prepared: Prepared): Option<Abort> {
    if ErrorBeforeUpsert(op, prepared).Some? then ErrorBeforeUpsert(op, prepared)
    else if !FitsInt4(op.blockHeight) then Some(OutOfRange)
    else None
  }

  /** The statements of an ingestion that goes through. */
  ghost predicate Executes(before: Table, after: Table, op: Ingestion, prepared: Prepared) {
    exists middle :: OrphansFor(before, middle, op, prepared) && Upserting(middle, after, prepared.accepted, |prepared.accepted|)
  }

  lemma ExecutesBy(before: Table, middle: Table, after: Table, op: Ingestion, prepared: Prepared)
    requires OrphansFor(before, middle, op, prepared) && Upserting(middle, after, prepared.accepted, |prepared.accepted|)
    ensures Executes(before, after, op, prepared)
  {
  }

  lemma ExecutionCommits(before: Table, after: Table, op: Ingestion, prepared: Prepared)
    requires ValidContent(ContentOf(before.rows)) && FromArchive(op.status, op.batch)
    requires GoodArguments(op) && prepared == Prepare(ContentOf(before.rows), Ranged(op))
    requires AbortReason(ContentOf(before.rows), op, prepared).None? && Executes(before, after, op, prepared)
    ensures Commits(before, after, Ingesting(op))
    ensures after.cursors == before.cursors
  {
    var middle :| OrphansFor(before, middle, op, prepared) && Upserting(middle, after, prepared.accepted, |prepared.accepted|);
    assert PlanOf(ContentOf(before.rows), Ingesting(op)) ==
      Plan(BeforeUpsert(ContentOf(before.rows), op, prepared), prepared.accepted);
    PlanCommits(before, middle, after, Ingesting(op));
  }

  function ChangedIds(before: map<Identity, Row>, after: map<Identity, Row>): set<Identity> {
    set id | id in before && id in after && after[id].columns != before[id].columns
  }

  /** A pending row first seen at least the depth below the cursor turns orphaned; nothing else changes. */
  function SweptColumns(c: Columns, canonicalCursor: nat, orphanDepthBlocks: nat): Columns {
    match c.pendingSeenAtHeight
    case None => c
    case Some(height) => if c.status == Pending && height + orphanDepthBlocks <= canonicalCursor then c.(status := Orphaned) else c
  }

  lemma SweptAreChanged(
    before: map<Identity, Row>, after: map<Identity, Row>, swept: set<Identity>, canonicalCursor: nat, orphanDepthBlocks: nat)
    requires swept == SweptIds(ContentOf(before), canonicalCursor, orphanDepthBlocks)
    requires ContentOf(after) == OrphanChosen(ContentOf(before), swept)
    ensures after.Keys == before.Keys && ChangedIds(before, after) == swept
    ensures forall id | id in after :: after[id].columns == SweptColumns(before[id].columns, canonicalCursor, orphanDepthBlocks)
  {
    assert after.Keys == before.Keys;
    forall id | id in after
      ensures after[id].columns == SweptColumns(before[id].columns, canonicalCursor, orphanDepthBlocks)
      ensures id in ChangedIds(before, after) <==> id in swept
    {
      assert ContentOf(after)[id] == OrphanChosen(ContentOf(before), swept)[id];
    }
  }

  /** The rows a sweep orphans. */
  function SweptIds(content: Content, canonicalCursor: nat, orphanDepthBlocks: nat): set<Identity> {
    set id | id in content && content[id].status == Pending && content[id].pendingSeenAtHeight.Some?
             && content[id].pendingSeenAtHeight.value <= canonicalCursor - orphanDepthBlocks
  }

  lemma SweepOrphans(content: Content, canonicalCursor: nat, orphanDepthBlocks: nat)
    requires ValidContent(content)
    ensures OrphanChosen(content, SweptIds(content, canonicalCursor, orphanDepthBlocks)) ==
      Sweep(content, canonicalCursor, orphanDepthBlocks)
  {
    forall id | id in content ensures Nonnegative(content[id].pendingSeenAtHeight) {
      assert ValidColumns(content[id]);
    }
    SweepOrphansSeen(content, canonicalCursor, orphanDepthBlocks);
  }

  lemma SweepOrphansSeen(content: Content, canonicalCursor: nat, orphanDepthBlocks: nat)
    requires forall id | id in content :: Nonnegative(content[id].pendingSeenAtHeight)
    ensures OrphanChosen(content, SweptIds(content, canonicalCursor, orphanDepthBlocks)) ==
      Sweep(content, canonicalCursor, orphanDepthBlocks)
  {
    var swept, chosen := SweptIds(content, canonicalCursor, orphanDepthBlocks), OrphanChosen(content, SweptIds(content, canonicalCursor, orphanDepthBlocks));
    if canonicalCursor < orphanDepthBlocks {
      assert swept == {};
    }
    forall id | id in content ensures chosen[id] == Sweep(content, canonicalCursor, orphanDepthBlocks)[id] {
    }
  }

  lemma PlanHasNoDetour(before: Table, middle: Table, after: Table, w: Write)
    requires ValidContent(ContentOf(before.rows)) && Genuine(w)
    requires ContentOf(middle.rows) == PlanOf(ContentOf(before.rows), w).middle
    requires ContentOf(after.rows) == Apply(ContentOf(before.rows), w)
    ensures NoDetour(before, middle, after)
  {
    var content := ContentOf(before.rows);
    forall id | id in before.rows && id in middle.rows && id in after.rows && after.rows[id].columns == before.rows[id].columns
      ensures middle.rows[id].columns == before.rows[id].columns
    {
      NoRowComesBack(content, w, id);
      assert Lookup(ContentOf(after.rows), id) == Lookup(content, id);
    }
  }
}
