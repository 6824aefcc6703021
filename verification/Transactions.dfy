/**
 The writing transactions of EventsRepository as functions on the content of the
 event table: what prepareBatch accepts, and what each transaction stores.
 Change sequences are added in EventStore.
 */
module Transactions {
  import opened Wrappers
  import opened Texts
  import opened Json
  import opened Rows
  import opened Validation
  import opened BlockOrder
  import opened Batches

  type Content = map<Identity, Columns>

  /** prepareBatch: the rows to upsert, the rejections, and the exact duplicates dropped. */
  datatype Prepared = Prepared(accepted: seq<Incoming>, rejected: seq<Rejection>, dropped: seq<nat>)

  function ConflictRejection(row: Incoming): Rejection {
    Rejection(row.source, row.columns.status, row.columns.blockHeight, Some(row.columns.blockEventIndex), ImmutableEventConflict)
  }

  /** Where the first row with an identity stands, if there is one. */
  function Find(rows: seq<Incoming>, id: Identity): (r: Option<nat>)
    ensures r.Some? ==> r.value < |rows| && rows[r.value].identity == id
    ensures r.None? ==> forall i | 0 <= i < |rows| :: rows[i].identity != id
  {
    if |rows| == 0 then None
    else
      var front := Find(rows[..|rows| - 1], id);
      if front.Some? then front
      else if rows[|rows| - 1].identity == id then Some(|rows| - 1)
      else None
  }

  predicate DistinctIdentities(rows: seq<Incoming>) {
    forall i, j | 0 <= i < j < |rows| :: rows[i].identity != rows[j].identity
  }

  /** The first pass: one row per identity; later ones are dropped or rejected. */
  function Dedupe(rows: seq<Incoming>, matches: (Incoming, Incoming) -> bool): Prepared {
    if |rows| == 0 then Prepared([], [], [])
    else
      var n := |rows| - 1;
      DedupeStep(Dedupe(rows[..n], matches), rows[n], matches)
  }

  function DedupeStep(front: Prepared, row: Incoming, matches: (Incoming, Incoming) -> bool): Prepared {
    var prior := Find(front.accepted, row.identity);
    if prior.None? then front.(accepted := front.accepted + [row])
    else if matches(front.accepted[prior.value], row) then front.(dropped := front.dropped + [row.source])
    else front.(rejected := front.rejected + [ConflictRejection(row)])
  }

  lemma StepIsSound(rows: seq<Incoming>, front: Prepared, row: Incoming, matches: (Incoming, Incoming) -> bool)
    requires DistinctIdentities(front.accepted) && forall kept | kept in front.accepted :: kept in rows
    ensures DistinctIdentities(DedupeStep(front, row, matches).accepted)
    ensures forall kept | kept in DedupeStep(front, row, matches).accepted :: kept in rows + [row]
  {
  }

  lemma {:induction false} DedupeIsSound(rows: seq<Incoming>, matches: (Incoming, Incoming) -> bool)
    ensures DistinctIdentities(Dedupe(rows, matches).accepted)
    ensures forall row | row in Dedupe(rows, matches).accepted :: row in rows
  {
    if |rows| > 0 {
      var n := |rows| - 1;
      DedupeIsSound(rows[..n], matches);
      StepIsSound(rows[..n], Dedupe(rows[..n], matches), rows[n], matches);
      assert rows == rows[..n] + [rows[n]];
    }
  }

  lemma NoneSeparate(xs: seq<Incoming>, id: Identity, matches: (Incoming, Incoming) -> bool)
    requires forall i | 0 <= i < |xs| :: xs[i].identity != id
    ensures Find(Dedupe(xs, matches).accepted, id).None?
  {
    var kept := Dedupe(xs, matches).accepted;
    DedupeIsSound(xs, matches);
    forall i | 0 <= i < |kept| ensures kept[i].identity != id {
      assert kept[i] in xs;
    }
  }

  /** The second pass: rows that contradict the stored event are rejected. */
  function CheckStored(rows: seq<Incoming>, matches: Incoming -> bool): Prepared {
    if |rows| == 0 then Prepared([], [], [])
    else
      var n := |rows| - 1;
      CheckStep(CheckStored(rows[..n], matches), rows[n], matches(rows[n]))
  }

  function CheckStep(front: Prepared, row: Incoming, matches: bool): Prepared {
    if matches then front.(accepted := front.accepted + [row])
    else front.(rejected := front.rejected + [ConflictRejection(row)])
  }

  lemma {:induction false} CheckStoredFilters(rows: seq<Incoming>, matches: Incoming -> bool)
    ensures forall row :: row in CheckStored(rows, matches).accepted <==> row in rows && matches(row)
  {
    if |rows| > 0 {
      var n := |rows| - 1;
      CheckStoredFilters(rows[..n], matches);
      assert rows == rows[..n] + [rows[n]];
    }
  }

  lemma {:induction false} CheckStoredKeepsDistinct(rows: seq<Incoming>, matches: Incoming -> bool)
    requires DistinctIdentities(rows)
    ensures DistinctIdentities(CheckStored(rows, matches).accepted)
  {
    if |rows| > 0 {
      var n := |rows| - 1;
      var front := CheckStored(rows[..n], matches).accepted;
      CheckStoredKeepsDistinct(rows[..n], matches);
      CheckStoredFilters(rows[..n], matches);
      forall i | 0 <= i < |front| ensures front[i].identity != rows[n].identity {
        assert front[i] in rows[..n];
      }
    }
  }

  /** Two observations of one response agree on what is immutable. */
  predicate SameEvent(prior: Incoming, row: Incoming) {
    ImmutableMatches(prior.identity, prior.columns, row.identity, row.columns)
  }

  /** The row does not contradict the stored event of its identity. */
  predicate MatchesStored(content: Content, row: Incoming) {
    row.identity in content ==>
      ImmutableMatches(row.identity, content[row.identity], row.identity, row.columns)
  }

  function Prepare(content: Content, batch: Batch): (r: Prepared)
    ensures DistinctIdentities(r.accepted)
    ensures forall row | row in r.accepted :: row in batch.accepted && MatchesStored(content, row)
  {
    var unique := Dedupe(batch.accepted, SameEvent);
    var checked := CheckStored(unique.accepted, row => MatchesStored(content, row));
    DedupeIsSound(batch.accepted, SameEvent);
    CheckStoredFilters(unique.accepted, row => MatchesStored(content, row));
    CheckStoredKeepsDistinct(unique.accepted, row => MatchesStored(content, row));
    Prepared(checked.accepted, batch.rejected + unique.rejected + checked.rejected, unique.dropped)
  }

  predicate IsCanonical(content: Content, id: Identity) {
    id in content && content[id].status == Status.Canonical
  }

  predicate IsPending(content: Content, id: Identity) {
    id in content && content[id].status == Pending
  }

  /** Some accepted canonical row is not canonical yet. */
  predicate AdvancesCanonical(content: Content, rows: seq<Incoming>) {
    exists i | 0 <= i < |rows| :: rows[i].columns.status == Status.Canonical && !IsCanonical(content, rows[i].identity)
  }

  /** The UPDATE that turns the chosen pending rows orphaned. */
  function Orphan(content: Content, chosen: Columns -> bool): (r: Content)
    ensures r.Keys == content.Keys
    ensures forall id | id in content :: r[id] == OrphanRow(content[id], chosen)
  {
    map id | id in content :: OrphanRow(content[id], chosen)
  }

  function OrphanRow(c: Columns, chosen: Columns -> bool): Columns {
    if c.status == Pending && chosen(c) then c.(status := Orphaned) else c
  }

  function OrphanAllPending(content: Content): Content {
    Orphan(content, c => true)
  }

  predicate Between(height: Option<int>, range: Range) {
    height.Some? && range.from <= height.value <= range.to
  }

  function Identities(rows: seq<Incoming>): set<Identity> {
    set i | 0 <= i < |rows| :: rows[i].identity
  }

  lemma FindDecidesIdentities(rows: seq<Incoming>, id: Identity)
    ensures Find(rows, id).Some? <==> id in Identities(rows)
  {
  }

  /** retireAbsentPendingEvents: pending rows of the range that the snapshot does not show. */
  function RetireAbsent(content: Content, range: Range, observed: set<Identity>): (r: Content)
    ensures r.Keys == content.Keys
    ensures forall id | id in content ::
      r[id] == if id !in observed && Between(content[id].blockHeight, range) then OrphanRow(content[id], c => true) else content[id]
  {
    map id | id in content ::
      if id !in observed && Between(content[id].blockHeight, range) then OrphanRow(content[id], c => true) else content[id]
  }

  /** What one inserted row leaves behind, given what is stored under its identity. */
  function Resolve(stored: Option<Columns>, incoming: Columns): Columns {
    if stored.None? then incoming
    else if ConflictGuard(stored.value, incoming) then Merge(stored.value, incoming)
    else stored.value
  }

  function Lookup(content: Content, id: Identity): Option<Columns> {
    if id in content then Some(content[id]) else None
  }

  /** The rows of one INSERT, in order, under a conflict rule. */
  function UpsertWith(content: Content, rows: seq<Incoming>, resolve: (Option<Columns>, Columns) -> Columns): Content {
    if |rows| == 0 then content
    else
      var row := rows[|rows| - 1];
      var front := UpsertWith(content, rows[..|rows| - 1], resolve);
      front[row.identity := resolve(Lookup(front, row.identity), row.columns)]
  }

  /** upsertAccepted. */
  function Upsert(content: Content, rows: seq<Incoming>): Content {
    UpsertWith(content, rows, Resolve)
  }

  const MAX_INT4 := 2_147_483_647
  const MAX_UINT32 := 4_294_967_295

  predicate FitsInt4(n: int) {
    0 <= n <= MAX_INT4
  }

  /** The integer columns of a row are in the range their types store. */
  predicate Storable(row: Incoming) {
    && FitsInt4(row.identity.accountUpdateIndex) && FitsInt4(row.identity.eventIndex)
    && FitsInt4(row.columns.blockEventIndex)
    && (row.columns.blockHeight.Some? ==> FitsInt4(row.columns.blockHeight.value))
    && (row.columns.pendingSeenAtHeight.Some? ==> FitsInt4(row.columns.pendingSeenAtHeight.value))
    && (row.columns.globalSlot.Some? ==> 0 <= row.columns.globalSlot.value <= MAX_UINT32)
  }

  predicate AllStorable(rows: seq<Incoming>) {
    forall i | 0 <= i < |rows| :: Storable(rows[i])
  }

  datatype AncestryBlock = AncestryBlock(blockHeight: int, stateHash: Text)

  /** A canonical row at or above the anchor is not on the selected chain. */
  predicate ContradictsAncestry(content: Content, ancestry: seq<AncestryBlock>) {
    ancestry != [] &&
    exists id | id in content ::
      && content[id].status == Status.Canonical
      && content[id].blockHeight.Some? && content[id].blockHeight.value >= ancestry[0].blockHeight
      && content[id].stateHash.Some? && content[id].stateHash.value != []
      && forall i | 0 <= i < |ancestry| :: ancestry[i].stateHash != content[id].stateHash.value
  }

  /** The arguments of ingestRawEventsAndAdvanceCursor after normalisation. */
  datatype Ingestion = Ingestion(
    batch: Batch, status: Status, cursorName: Text, blockHeight: int,
    completeRange: Option<Range>, replacePendingBranch: bool, ancestry: seq<AncestryBlock>)

  datatype Abort = BadArguments | ContradictedAncestry | InvalidPendingBranch | OutOfRange

  datatype Stored = Stored(content: Content, accepted: seq<Incoming>, rejected: seq<Rejection>)

  predicate GoodArguments(op: Ingestion) {
    && 0 <= op.blockHeight <= MAX_SAFE_INTEGER
    && (op.completeRange.Some? ==> 0 <= op.completeRange.value.from <= op.completeRange.value.to == op.blockHeight)
  }

  /** The batch with out-of-range rows rejected, as the transaction receives it. */
  function Ranged(op: Ingestion): Batch {
    if op.completeRange.Some? then EnforceCompleteRange(op.batch, op.status, op.completeRange.value) else op.batch
  }

  const WHOLE_CHAIN := Range(0, MAX_INT4)

  /** A snapshot retires rows only when it is complete and nothing in it was rejected. */
  predicate Retires(op: Ingestion, prepared: Prepared) {
    op.status == Pending && op.completeRange.Some? && prepared.rejected == []
  }

  /** The rows the transaction turns orphaned before it upserts. */
  function BeforeUpsert(content: Content, op: Ingestion, prepared: Prepared): Content {
    var unpended := if AdvancesCanonical(content, prepared.accepted) then OrphanAllPending(content) else content;
    if Retires(op, prepared) then
      RetireAbsent(
        unpended, if op.replacePendingBranch then WHOLE_CHAIN else op.completeRange.value, Identities(prepared.accepted))
    else unpended
  }

  /** Why the transaction gives up, if it does. */
  function AbortReason(content: Content, op: Ingestion, prepared: Prepared): Option<Abort> {
    if ContradictsAncestry(content, op.ancestry) then Some(ContradictedAncestry)
    else if op.replacePendingBranch && prepared.rejected != [] then Some(InvalidPendingBranch)
    else if !AllStorable(prepared.accepted) || !FitsInt4(op.blockHeight) then Some(OutOfRange)
    else None
  }

  /** The body of ingestRawEventsAndAdvanceCursor up to the cursor. */
  function Ingest(content: Content, op: Ingestion): Result<Stored, Abort> {
    if !GoodArguments(op) then Failure(BadArguments)
    else
      var prepared := Prepare(content, Ranged(op));
      match AbortReason(content, op, prepared)
      case Some(reason) => Failure(reason)
      case None => Success(Stored(
        Upsert(BeforeUpsert(content, op, prepared), prepared.accepted), prepared.accepted, prepared.rejected))
  }

  /** insertRawEvents: no retirement and no cursor. */
  function Insert(content: Content, batch: Batch): Result<Stored, Abort> {
    var prepared := Prepare(content, batch);
    if !AllStorable(prepared.accepted) then Failure(OutOfRange)
    else Success(Stored(Upsert(content, prepared.accepted), prepared.accepted, prepared.rejected))
  }

  /** markPendingAsOrphaned. */
  function Sweep(content: Content, canonicalCursor: nat, orphanDepthBlocks: nat): Content {
    var cutoff := canonicalCursor - orphanDepthBlocks;
    if cutoff < 0 then content
    else Orphan(content, (c: Columns) => c.pendingSeenAtHeight.Some? && c.pendingSeenAtHeight.value <= cutoff)
  }

  // ---------------------------------------------------------------- table invariant

  /** What every stored row satisfies. */
  predicate ValidContent(content: Content) {
    forall id | id in content ::
      ValidColumns(content[id]) && (content[id].blockHeight.Some? ==> FitsInt4(content[id].blockHeight.value))
  }

  lemma StoredPayloadMatches(content: Content, row: Incoming)
    requires ValidContent(content) && ValidRow(row, row.columns.status)
    requires MatchesStored(content, row) && row.identity in content
    ensures ConflictGuard(content[row.identity], row.columns)
  {
    var raw, raw' := content[row.identity].rawEventData, row.columns.rawEventData;
    ImmutableMatchesIsExact(row.identity, content[row.identity], row.identity, row.columns);
  }

  /** An upsert of distinct rows writes each of them once and nothing else. */
  lemma {:induction false} UpsertWithEffect(
    content: Content, rows: seq<Incoming>, resolve: (Option<Columns>, Columns) -> Columns, id: Identity)
    requires DistinctIdentities(rows)
    ensures
      var r, at := UpsertWith(content, rows, resolve), Find(rows, id);
      match at
      case None => Lookup(r, id) == Lookup(content, id)
      case Some(i) => Lookup(r, id) == Some(resolve(Lookup(content, id), rows[i].columns))
  {
    if |rows| > 0 {
      var n := |rows| - 1;
      UpsertWithEffect(content, rows[..n], resolve, id);
      if rows[n].identity == id {
        assert Find(rows[..n], id).None?;
      }
    }
  }
}
