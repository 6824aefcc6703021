/** What a stored row shows: the last observation that decided it, and when it was first seen pending. */
module Observations {
  import opened Wrappers
  import opened Texts
  import opened Json
  import opened Rows
  import opened Validation
  import opened BlockOrder
  import opened Batches
  import opened Transactions
  import opened Lifecycle
  import opened Reingestion

  // ---------------------------------------------------------------- one transaction

  /** What a transaction says of an event, if anything. */
  function Seen(content: Content, w: Write, id: Identity): Option<Columns> {
    IncomingFor(PlanOf(content, w).rows, id)
  }

  /** The event is observed, and not by a lesser observation of a canonical row. */
  predicate Decides(before: Option<Columns>, seen: Option<Columns>) {
    seen.Some? && (IsCanonicalRow(before) ==> seen.value.status == Status.Canonical)
  }

  /** The same in every column but the status and the height of first sight. */
  predicate Shows(row: Columns, seen: Columns) {
    && row.blockHeight == seen.blockHeight && row.blockTimestamp == seen.blockTimestamp
    && row.globalSlot == seen.globalSlot && row.stateHash == seen.stateHash
    && row.parentHash == seen.parentHash && row.chainStatus == seen.chainStatus
    && row.eventType == seen.eventType && row.accountUpdateId == seen.accountUpdateId
    && row.blockEventIndex == seen.blockEventIndex && row.rawEventData == seen.rawEventData
  }

  /**
   The height of first sight after an observation: a pending observation sets it unless
   the row is pending already, and no other observation touches it.
   */
  function FirstSight(before: Option<Columns>, seen: Columns): Option<int> {
    match before
    case None => seen.pendingSeenAtHeight
    case Some(row) =>
      if seen.status == Pending && row.status != Pending then seen.pendingSeenAtHeight else row.pendingSeenAtHeight
  }

  /** An undecided row stays, or turns from pending to orphaned. */
  predicate Lapses(before: Option<Columns>, after: Option<Columns>) {
    || after == before
    || (before.Some? && after.Some? && before.value.status == Pending && after.value.status == Orphaned
        && Shows(after.value, before.value) && after.value.pendingSeenAtHeight == before.value.pendingSeenAtHeight)
  }

  /** What one transaction makes of a row: a deciding observation is shown, anything else at most orphans. */
  predicate Evolves(before: Option<Columns>, seen: Option<Columns>, after: Option<Columns>) {
    if Decides(before, seen) then
      && after.Some? && Shows(after.value, seen.value) && after.value.status == seen.value.status
      && after.value.pendingSeenAtHeight == FirstSight(before, seen.value)
    else Lapses(before, after)
  }

  lemma SettledRowEvolves(before: Option<Columns>, middle: Option<Columns>, seen: Option<Columns>)
    requires Fits(before, middle, seen) && ComesBackCanonical(before, middle, seen)
    ensures Evolves(before, seen, Settle(middle, seen))
  {
  }

  lemma TransactionEvolves(content: Content, w: Write, id: Identity)
    requires ValidContent(content) && Genuine(w)
    ensures Evolves(Lookup(content, id), Seen(content, w, id), Lookup(Apply(content, w), id))
  {
    var plan, status := PlanOf(content, w), StatusOf(w);
    ApplyAt(content, w, id);
    PlanIsSound(content, w);
    PlanFits(content, plan.middle, plan.rows, status, id);
    PlanKeepsObserved(content, w);
    ObservedRowsComeBackCanonical(content, plan.middle, plan.rows, status, id);
    SettledRowEvolves(Lookup(content, id), Lookup(plan.middle, id), IncomingFor(plan.rows, id));
  }

  // ---------------------------------------------------------------- the history of a row

  /** rows[k] is the row before observation k; the last one is the row now. */
  ghost predicate IsHistory(rows: seq<Option<Columns>>, seen: seq<Option<Columns>>) {
    |rows| == |seen| + 1 && forall k | 0 <= k < |seen| :: EvolvesAt(rows, seen, k)
  }

  ghost predicate EvolvesAt(rows: seq<Option<Columns>>, seen: seq<Option<Columns>>, k: nat)
    requires k < |seen| && |rows| == |seen| + 1
  {
    Evolves(rows[k], seen[k], rows[k + 1]) && (rows[k].Some? && rows[k].value.status == Pending ==> rows[k].value.pendingSeenAtHeight.Some?)
  }

  lemma {:induction false} HistoryShowsLast(rows: seq<Option<Columns>>, seen: seq<Option<Columns>>, k: nat, n: nat)
    requires IsHistory(rows, seen) && k < n <= |seen| && Decides(rows[k], seen[k])
    requires forall m | k < m < n :: !Decides(rows[m], seen[m])
    ensures rows[n].Some? && Shows(rows[n].value, seen[k].value)
    ensures rows[n].value.status == seen[k].value.status || (seen[k].value.status == Pending && rows[n].value.status == Orphaned)
  {
    assert EvolvesAt(rows, seen, n - 1);
    if k < n - 1 {
      HistoryShowsLast(rows, seen, k, n - 1);
    }
  }

  predicate IsPendingRow(row: Option<Columns>) {
    row.Some? && row.value.status == Pending
  }

  lemma {:induction false} HistoryKeepsFirstSight(rows: seq<Option<Columns>>, seen: seq<Option<Columns>>, k: nat, n: nat)
    requires IsHistory(rows, seen) && k < n <= |seen|
    requires !IsPendingRow(rows[k]) && forall m | k < m <= n :: IsPendingRow(rows[m])
    ensures IsPendingRow(rows[n]) && IsPendingRow(seen[k]) && rows[n].value.pendingSeenAtHeight == seen[k].value.pendingSeenAtHeight
  {
    assert EvolvesAt(rows, seen, n - 1);
    assert IsPendingRow(rows[n]);
    if k < n - 1 {
      assert IsPendingRow(rows[n - 1]);
      HistoryKeepsFirstSight(rows, seen, k, n - 1);
    }
  }

  // ---------------------------------------------------------------- every run

  function RowAt(content: Content, writes: seq<Write>, id: Identity, k: nat): Option<Columns>
    requires k <= |writes|
  {
    Lookup(Run(content, writes[..k]), id)
  }

  function SeenAt(content: Content, writes: seq<Write>, id: Identity, k: nat): Option<Columns>
    requires k < |writes|
  {
    Seen(Run(content, writes[..k]), writes[k], id)
  }

  function RowsOf(content: Content, writes: seq<Write>, id: Identity): (rows: seq<Option<Columns>>)
    ensures |rows| == |writes| + 1 && forall k | 0 <= k <= |writes| :: rows[k] == RowAt(content, writes, id, k)
  {
    seq(|writes| + 1, k requires 0 <= k <= |writes| => RowAt(content, writes, id, k))
  }

  function SeensOf(content: Content, writes: seq<Write>, id: Identity): (seen: seq<Option<Columns>>)
    ensures |seen| == |writes| && forall k | 0 <= k < |writes| :: seen[k] == SeenAt(content, writes, id, k)
  {
    seq(|writes|, k requires 0 <= k < |writes| => SeenAt(content, writes, id, k))
  }

  lemma RunEvolvesAt(content: Content, writes: seq<Write>, id: Identity, k: nat)
    requires ValidContent(content) && AllGenuine(writes) && k < |writes|
    ensures Evolves(RowAt(content, writes, id, k), SeenAt(content, writes, id, k), RowAt(content, writes, id, k + 1))
    ensures IsPendingRow(RowAt(content, writes, id, k)) ==> RowAt(content, writes, id, k).value.pendingSeenAtHeight.Some?
    ensures SeenAt(content, writes, id, k).Some? && SeenAt(content, writes, id, k).value.status == Pending ==>
      SeenAt(content, writes, id, k).value.pendingSeenAtHeight == SeenAt(content, writes, id, k).value.blockHeight
  {
    var before, w := Run(content, writes[..k]), writes[k];
    RunKeepsLifecycle(content, writes[..k]);
    TransactionEvolves(before, w, id);
    assert writes[..k + 1][..k] == writes[..k];
    ObservedHeightIsTheBlock(before, w, id);
    assert IsPendingRow(RowAt(content, writes, id, k)) ==> IsPending(before, id);
  }

  lemma ObservedHeightIsTheBlock(content: Content, w: Write, id: Identity)
    requires Genuine(w)
    ensures Seen(content, w, id).Some? && Seen(content, w, id).value.status == Pending ==>
      Seen(content, w, id).value.pendingSeenAtHeight == Seen(content, w, id).value.blockHeight
  {
    PlanIsSound(content, w);
    var rows := PlanOf(content, w).rows;
    match Find(rows, id)
    case None =>
    case Some(i) => assert SoundRow(content, rows[i], StatusOf(w));
  }

  lemma RunIsHistory(content: Content, writes: seq<Write>, id: Identity)
    requires ValidContent(content) && AllGenuine(writes)
    ensures IsHistory(RowsOf(content, writes, id), SeensOf(content, writes, id))
  {
    var rows, seen := RowsOf(content, writes, id), SeensOf(content, writes, id);
    forall k | 0 <= k < |seen| ensures EvolvesAt(rows, seen, k) {
      RunEvolvesAt(content, writes, id, k);
    }
  }

  /**
   In every run of transactions on archive responses: a row shows, in every column, the
   last observation that decided it; since then it was orphaned at most.
   */
  lemma RowShowsLastObservation(content: Content, writes: seq<Write>, id: Identity, k: nat)
    requires ValidContent(content) && AllGenuine(writes) && k < |writes|
    requires Decides(RowAt(content, writes, id, k), SeenAt(content, writes, id, k))
    requires forall m | k < m < |writes| :: !Decides(RowAt(content, writes, id, m), SeenAt(content, writes, id, m))
    ensures
      var row, seen := Lookup(Run(content, writes), id), SeenAt(content, writes, id, k).value;
      && row.Some? && Shows(row.value, seen)
      && (row.value.status == seen.status || (seen.status == Pending && row.value.status == Orphaned))
  {
    assert writes[..|writes|] == writes;
    RunIsHistory(content, writes, id);
    HistoryShowsLast(RowsOf(content, writes, id), SeensOf(content, writes, id), k, |writes|);
  }

  /**
   In every run: a pending row was first seen at the height of the observation that last
   turned it pending, however often it was observed pending after that.
   */
  lemma PendingRowKeepsItsFirstHeight(content: Content, writes: seq<Write>, id: Identity, k: nat)
    requires ValidContent(content) && AllGenuine(writes) && k < |writes|
    requires !IsPendingRow(RowAt(content, writes, id, k))
    requires forall m | k < m <= |writes| :: IsPendingRow(RowAt(content, writes, id, m))
    ensures IsPending(Run(content, writes), id)
    ensures SeenAt(content, writes, id, k).Some? && SeenAt(content, writes, id, k).value.status == Pending
    ensures Run(content, writes)[id].pendingSeenAtHeight == SeenAt(content, writes, id, k).value.blockHeight
  {
    assert writes[..|writes|] == writes;
    RunIsHistory(content, writes, id);
    RunEvolvesAt(content, writes, id, k);
    HistoryKeepsFirstSight(RowsOf(content, writes, id), SeensOf(content, writes, id), k, |writes|);
    assert IsPendingRow(RowAt(content, writes, id, |writes|));
  }
}
