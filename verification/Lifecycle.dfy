/**
 What every run of writing transactions keeps: the table invariant, the lifecycle
 of a row, and the immutability of an event's type and contract data.
 */
module Lifecycle {
  import opened Wrappers
  import opened Texts
  import opened Json
  import opened Rows
  import opened Validation
  import opened BlockOrder
  import opened Batches
  import opened Transactions

  /** One transaction that writes event rows. */
  datatype Write =
    | Ingesting(op: Ingestion)
    | Inserting(status: Status, batch: Batch)
    | Sweeping(canonicalCursor: nat, orphanDepthBlocks: nat)

  /** Batches come from archive responses. */
  ghost predicate FromArchive(status: Status, batch: Batch) {
    exists env: Env, outputs: seq<Value> :: BuiltFrom(env, outputs, status, batch)
  }

  ghost predicate BuiltFrom(env: Env, outputs: seq<Value>, status: Status, batch: Batch) {
    (forall i | 0 <= i < |outputs| :: WellFormed(outputs[i])) && batch == BuildBatch(env, status, outputs)
  }

  ghost predicate Genuine(w: Write) {
    match w
    case Ingesting(op) => FromArchive(op.status, op.batch)
    case Inserting(status, batch) => FromArchive(status, batch)
    case Sweeping(_, _) => true
  }

  function StatusOf(w: Write): Status {
    match w
    case Ingesting(op) => op.status
    case Inserting(status, _) => status
    case Sweeping(_, _) => Orphaned
  }

  /** The two halves of a transaction: rows already updated to orphaned, then rows to upsert. */
  datatype Plan = Plan(middle: Content, rows: seq<Incoming>)

  /** What a transaction sets out to do; one that aborts does nothing. */
  function PlanOf(content: Content, w: Write): Plan {
    match w
    case Ingesting(op) =>
      (match Ingest(content, op)
       case Failure(_) => Plan(content, [])
       case Success(stored) => Plan(BeforeUpsert(content, op, Prepare(content, Ranged(op))), stored.accepted))
    case Inserting(_, batch) =>
      (match Insert(content, batch)
       case Failure(_) => Plan(content, [])
       case Success(stored) => Plan(content, stored.accepted))
    case Sweeping(cursor, depth) => Plan(Sweep(content, cursor, depth), [])
  }

  /** The content a transaction leaves. */
  function Apply(content: Content, w: Write): Content {
    var plan := PlanOf(content, w);
    Upsert(plan.middle, plan.rows)
  }

  function Run(content: Content, writes: seq<Write>): Content {
    if |writes| == 0 then content else Apply(Run(content, writes[..|writes| - 1]), writes[|writes| - 1])
  }

  /** Apply is the transaction of the repository when it succeeds, and nothing otherwise. */
  lemma ApplyIsTheTransaction(content: Content, op: Ingestion)
    ensures
      match Ingest(content, op)
      case Success(stored) => Apply(content, Ingesting(op)) == stored.content
      case Failure(_) => Apply(content, Ingesting(op)) == content
  {
  }

  // ---------------------------------------------------------------- one transaction, row by row

  predicate SoundRow(content: Content, row: Incoming, status: Status) {
    && ValidRow(row, status) && Storable(row) && MatchesStored(content, row)
  }

  predicate SoundRows(content: Content, rows: seq<Incoming>, status: Status) {
    DistinctIdentities(rows) && forall i | 0 <= i < |rows| :: SoundRow(content, rows[i], status)
  }

  /** Some pending rows turned orphaned. */
  predicate OrphansSome(before: Content, after: Content) {
    && after.Keys == before.Keys
    && forall id | id in before :: MayOrphan(before[id], after[id])
  }

  lemma RangedIsValid(op: Ingestion)
    requires ValidRows(op.batch.accepted, op.status)
    ensures ValidRows(Ranged(op).accepted, op.status)
  {
    if op.completeRange.Some? {
      var rows := Ranged(op).accepted;
      SplitByRangeFilters(op.status, op.batch.accepted, op.completeRange.value);
      forall i | 0 <= i < |rows| ensures ValidRow(rows[i], op.status) {
        assert rows[i] in rows;
      }
    }
  }

  lemma PreparedIsSound(content: Content, batch: Batch, status: Status)
    requires ValidRows(batch.accepted, status) && AllStorable(Prepare(content, batch).accepted)
    ensures SoundRows(content, Prepare(content, batch).accepted, status)
  {
    var rows := Prepare(content, batch).accepted;
    forall i | 0 <= i < |rows| ensures SoundRow(content, rows[i], status) {
      assert rows[i] in rows;
    }
  }

  lemma GenuineIsValid(status: Status, batch: Batch)
    requires FromArchive(status, batch)
    ensures ValidRows(batch.accepted, status)
  {
    var env: Env, outputs: seq<Value> :| BuiltFrom(env, outputs, status, batch);
    BuildBatchIsValid(env, status, outputs);
  }

  lemma SomeRowsTurnOrphaned(content: Content, op: Ingestion, prepared: Prepared)
    ensures OrphansSome(content, BeforeUpsert(content, op, prepared))
  {
  }

  lemma IngestionIsSound(content: Content, op: Ingestion)
    requires FromArchive(op.status, op.batch)
    ensures OrphansSome(content, PlanOf(content, Ingesting(op)).middle)
    ensures SoundRows(content, PlanOf(content, Ingesting(op)).rows, op.status)
  {
    var batch := Ranged(op);
    var prepared := Prepare(content, batch);
    SomeRowsTurnOrphaned(content, op, prepared);
    GenuineIsValid(op.status, op.batch);
    RangedIsValid(op);
    if Ingest(content, op).Success? { PreparedIsSound(content, batch, op.status); }
  }

  lemma PlanIsSound(content: Content, w: Write)
    requires Genuine(w)
    ensures OrphansSome(content, PlanOf(content, w).middle)
    ensures SoundRows(content, PlanOf(content, w).rows, StatusOf(w))
  {
    match w
    case Ingesting(op) => IngestionIsSound(content, op);
    case Inserting(status, batch) =>
      GenuineIsValid(status, batch);
      if Insert(content, batch).Success? { PreparedIsSound(content, batch, status); }
    case Sweeping(_, _) =>
  }

  /** What the rows of an upsert say about an event. */
  function IncomingFor(rows: seq<Incoming>, id: Identity): Option<Columns> {
    match Find(rows, id)
    case None => None
    case Some(i) => Some(rows[i].columns)
  }

  /** What an upsert makes of one stored row. */
  function Settle(stored: Option<Columns>, incoming: Option<Columns>): Option<Columns> {
    if incoming.None? then stored
    else if stored.None? then incoming
    else Some(Merge(stored.value, incoming.value))
  }

  /** The WHERE clause of the upsert never turns an accepted row away. */
  lemma AcceptedRowsPassTheGuard(content: Content, middle: Content, row: Incoming, status: Status)
    requires ValidContent(content) && OrphansSome(content, middle) && SoundRow(content, row, status)
    ensures row.identity in middle ==> ConflictGuard(middle[row.identity], row.columns)
  {
    if row.identity in content {
      StoredPayloadMatches(content, row);
    }
  }

  /** A transaction, one identity at a time. */
  lemma ApplyAt(content: Content, w: Write, id: Identity)
    requires ValidContent(content) && Genuine(w)
    ensures
      var plan := PlanOf(content, w);
      Lookup(Apply(content, w), id) == Settle(Lookup(plan.middle, id), IncomingFor(plan.rows, id))
  {
    var plan := PlanOf(content, w);
    PlanIsSound(content, w);
    UpsertWithEffect(plan.middle, plan.rows, Resolve, id);
    match Find(plan.rows, id)
    case None =>
    case Some(i) => AcceptedRowsPassTheGuard(content, plan.middle, plan.rows[i], StatusOf(w));
  }

  // ---------------------------------------------------------------- every run

  predicate ValidStored(c: Columns) {
    ValidColumns(c) && (c.blockHeight.Some? ==> FitsInt4(c.blockHeight.value))
  }

  /** What a row may become: nothing immutable changes, and canonical stays canonical. */
  predicate Continues(before: Columns, after: Columns) {
    && after.eventType == before.eventType
    && ContractData(after.rawEventData) == ContractData(before.rawEventData)
    && (before.status == Status.Canonical ==> after.status == Status.Canonical)
  }

  /** The transaction observed the event as canonical. */
  predicate ObservesCanonical(content: Content, w: Write, id: Identity) {
    StatusOf(w) == Status.Canonical && id in Identities(PlanOf(content, w).rows)
  }

  predicate MayOrphan(before: Columns, after: Columns) {
    after == before || (before.status == Pending && after == before.(status := Orphaned))
  }

  predicate Fits(stored: Option<Columns>, middle: Option<Columns>, incoming: Option<Columns>) {
    && (stored.Some? <==> middle.Some?)
    && (stored.Some? ==> ValidStored(stored.value) && MayOrphan(stored.value, middle.value))
    && (incoming.Some? ==> ValidStored(incoming.value))
    && (incoming.Some? && middle.Some? ==> ConflictGuard(middle.value, incoming.value))
  }

  predicate IsCanonicalRow(row: Option<Columns>) {
    row.Some? && row.value.status == Status.Canonical
  }

  lemma RowContinues(stored: Option<Columns>, middle: Option<Columns>, incoming: Option<Columns>)
    requires Fits(stored, middle, incoming)
    ensures
      var after := Settle(middle, incoming);
      && (after.Some? ==> ValidStored(after.value))
      && (stored.Some? ==> after.Some? && Continues(stored.value, after.value))
      && (IsCanonicalRow(stored) && !IsCanonicalRow(incoming) ==> after == stored)
  {
    if stored.Some? && incoming.Some? {
      MergeRespectsLifecycle(middle.value, incoming.value);
      TouchIsExact(middle.value, incoming.value);
    }
  }

  lemma PlanFits(content: Content, middle: Content, rows: seq<Incoming>, status: Status, id: Identity)
    requires ValidContent(content) && OrphansSome(content, middle) && SoundRows(content, rows, status)
    ensures Fits(Lookup(content, id), Lookup(middle, id), IncomingFor(rows, id))
    ensures IncomingFor(rows, id).Some? <==> id in Identities(rows)
    ensures IncomingFor(rows, id).Some? ==> IncomingFor(rows, id).value.status == status
  {
    FindDecidesIdentities(rows, id);
    match Find(rows, id)
    case None =>
    case Some(i) =>
      assert SoundRow(content, rows[i], status);
      AcceptedRowsPassTheGuard(content, middle, rows[i], status);
  }

  lemma StepKeepsRow(content: Content, w: Write, id: Identity)
    requires ValidContent(content) && Genuine(w)
    ensures id in Apply(content, w) ==> ValidStored(Apply(content, w)[id])
    ensures id in content ==> id in Apply(content, w) && Continues(content[id], Apply(content, w)[id])
    ensures IsCanonical(content, id) && !ObservesCanonical(content, w, id) ==> Apply(content, w)[id] == content[id]
  {
    var plan := PlanOf(content, w);
    ApplyAt(content, w, id);
    PlanIsSound(content, w);
    PlanFits(content, plan.middle, plan.rows, StatusOf(w), id);
    RowContinues(Lookup(content, id), Lookup(plan.middle, id), IncomingFor(plan.rows, id));
  }

  lemma StepKeepsTable(content: Content, w: Write)
    requires ValidContent(content) && Genuine(w)
    ensures ValidContent(Apply(content, w))
  {
    forall id | id in Apply(content, w) ensures ValidStored(Apply(content, w)[id]) {
      StepKeepsRow(content, w, id);
    }
  }

  ghost predicate AllGenuine(writes: seq<Write>) {
    forall k | 0 <= k < |writes| :: Genuine(writes[k])
  }

  /**
   Over every run: the table invariant holds (so every pending row has a height it was
   first seen at), no row disappears, event type and contract data of an identity
   never change, and a canonical row stays canonical.
   */
  lemma {:induction false} RunKeepsLifecycle(content: Content, writes: seq<Write>)
    requires ValidContent(content) && AllGenuine(writes)
    ensures ValidContent(Run(content, writes))
    ensures forall id | IsPending(Run(content, writes), id) :: Run(content, writes)[id].pendingSeenAtHeight.Some?
    ensures forall id | id in content :: id in Run(content, writes) && Continues(content[id], Run(content, writes)[id])
  {
    if |writes| > 0 {
      var n := |writes| - 1;
      var before := Run(content, writes[..n]);
      RunKeepsLifecycle(content, writes[..n]);
      StepKeepsTable(before, writes[n]);
      forall id | id in content ensures id in Run(content, writes) && Continues(content[id], Run(content, writes)[id]) {
        StepKeepsRow(before, writes[n], id);
      }
    }
  }

  /** No transaction of the run observed the event as canonical. */
  ghost predicate NeverObservedCanonical(content: Content, writes: seq<Write>, id: Identity) {
    |writes| > 0 ==>
      && NeverObservedCanonical(content, writes[..|writes| - 1], id)
      && !ObservesCanonical(Run(content, writes[..|writes| - 1]), writes[|writes| - 1], id)
  }

  /** Only another canonical observation changes any column of a canonical row. */
  lemma {:induction false} CanonicalRowsAnswerToCanonical(content: Content, writes: seq<Write>, id: Identity)
    requires ValidContent(content) && AllGenuine(writes)
    requires IsCanonical(content, id) && NeverObservedCanonical(content, writes, id)
    ensures id in Run(content, writes) && Run(content, writes)[id] == content[id]
  {
    if |writes| > 0 {
      var n := |writes| - 1;
      RunKeepsLifecycle(content, writes[..n]);
      CanonicalRowsAnswerToCanonical(content, writes[..n], id);
      StepKeepsRow(Run(content, writes[..n]), writes[n], id);
    }
  }
}
