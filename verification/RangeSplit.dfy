/**
 Ingesting a complete canonical range in one transaction or in two, cut at a block
 boundary, leaves the same rows, although each promotion orphans the pending rows.
 */
module RangeSplit {
  import opened Wrappers
  import opened Texts
  import opened Json
  import opened Rows
  import opened Validation
  import opened BlockOrder
  import opened Batches
  import opened Transactions
  import opened Lifecycle
  import opened Reingestion

  /** The same rows apart from their positions in the response. */
  predicate Alike(xs: seq<Incoming>, ys: seq<Incoming>) {
    |xs| == |ys| && forall i | 0 <= i < |xs| :: AlikeRow(xs[i], ys[i])
  }

  predicate AlikeRow(x: Incoming, y: Incoming) {
    x.identity == y.identity && x.columns == y.columns
  }

  // ---------------------------------------------------------------- the filters, on a concatenation

  predicate AllWithin(rows: seq<Incoming>, from: int, to: int) {
    forall i | 0 <= i < |rows| :: rows[i].columns.blockHeight.Some? && from <= rows[i].columns.blockHeight.value <= to
  }

  predicate Separate(xs: seq<Incoming>, ys: seq<Incoming>) {
    forall i, j | 0 <= i < |xs| && 0 <= j < |ys| :: xs[i].identity != ys[j].identity
  }

  /** Cutting a list of rows to a range, when the rows of another range come first or not at all. */
  lemma {:induction false} RangedAlike(status: Status, xs: seq<Incoming>, ys: seq<Incoming>, range: Range, wide: Range)
    requires Alike(xs, ys)
    requires forall i | 0 <= i < |xs| :: InRange(xs[i], wide) <==> InRange(ys[i], range)
    ensures Alike(SplitByRange(status, xs, wide).accepted, SplitByRange(status, ys, range).accepted)
  {
    if |xs| > 0 {
      RangedAlike(status, xs[..|xs| - 1], ys[..|ys| - 1], range, wide);
    }
  }

  lemma {:induction false} RangedConcat(status: Status, xs: seq<Incoming>, ys: seq<Incoming>, range: Range)
    ensures SplitByRange(status, xs + ys, range).accepted ==
      SplitByRange(status, xs, range).accepted + SplitByRange(status, ys, range).accepted
  {
    if |ys| == 0 {
      assert xs + ys == xs;
    } else {
      var n := |ys| - 1;
      RangedConcat(status, xs, ys[..n], range);
      assert (xs + ys)[..|xs| + n] == xs + ys[..n];
    }
  }

  lemma {:induction false} FindAlike(xs: seq<Incoming>, ys: seq<Incoming>, id: Identity)
    requires Alike(xs, ys)
    ensures Find(xs, id) == Find(ys, id)
  {
    if |xs| > 0 {
      FindAlike(xs[..|xs| - 1], ys[..|ys| - 1], id);
    }
  }

  lemma {:induction false} DedupeAlike(xs: seq<Incoming>, ys: seq<Incoming>)
    requires Alike(xs, ys)
    ensures Alike(Dedupe(xs, SameEvent).accepted, Dedupe(ys, SameEvent).accepted)
  {
    if |xs| > 0 {
      var n := |xs| - 1;
      DedupeAlike(xs[..n], ys[..n]);
      FindAlike(Dedupe(xs[..n], SameEvent).accepted, Dedupe(ys[..n], SameEvent).accepted, xs[n].identity);
    }
  }

  lemma {:induction false} FindConcat(xs: seq<Incoming>, ys: seq<Incoming>, id: Identity)
    ensures Find(xs + ys, id) ==
      if Find(xs, id).Some? then Find(xs, id)
      else if Find(ys, id).Some? then Some(|xs| + Find(ys, id).value)
      else None
  {
    if |ys| == 0 {
      assert xs + ys == xs;
    } else {
      var n := |ys| - 1;
      FindConcat(xs, ys[..n], id);
      assert (xs + ys)[..|xs| + n] == xs + ys[..n];
    }
  }

  lemma {:induction false} DedupeConcat(xs: seq<Incoming>, ys: seq<Incoming>, matches: (Incoming, Incoming) -> bool)
    requires Separate(xs, ys)
    ensures Dedupe(xs + ys, matches).accepted == Dedupe(xs, matches).accepted + Dedupe(ys, matches).accepted
  {
    var all := xs + ys;
    if |ys| == 0 {
      assert all == xs;
    } else {
      var front, row := ys[..|ys| - 1], ys[|ys| - 1];
      var before := xs + front;
      DedupeConcat(xs, front, matches);
      assert all[..|all| - 1] == before && all[|all| - 1] == row;
      DedupeLast(all, before, row, matches);
      DedupeLast(ys, front, row, matches);
      NoneSeparate(xs, row.identity, matches);
      DedupeStepConcat(Dedupe(xs, matches).accepted, Dedupe(front, matches), Dedupe(before, matches), row, matches);
    }
  }

  lemma DedupeLast(rows: seq<Incoming>, front: seq<Incoming>, row: Incoming, matches: (Incoming, Incoming) -> bool)
    requires |rows| > 0 && rows[..|rows| - 1] == front && rows[|rows| - 1] == row
    ensures Dedupe(rows, matches) == DedupeStep(Dedupe(front, matches), row, matches)
  {
  }

  lemma DedupeStepConcat(
    front: seq<Incoming>, back: Prepared, whole: Prepared, row: Incoming, matches: (Incoming, Incoming) -> bool)
    requires whole.accepted == front + back.accepted && Find(front, row.identity).None?
    ensures DedupeStep(whole, row, matches).accepted == front + DedupeStep(back, row, matches).accepted
  {
    FindConcat(front, back.accepted, row.identity);
  }

  lemma {:induction false} CheckAlike(xs: seq<Incoming>, ys: seq<Incoming>, matches: Incoming -> bool)
    requires Alike(xs, ys) && forall x, y | AlikeRow(x, y) :: matches(x) == matches(y)
    ensures Alike(CheckStored(xs, matches).accepted, CheckStored(ys, matches).accepted)
  {
    if |xs| > 0 {
      var n := |xs| - 1;
      CheckAlike(xs[..n], ys[..n], matches);
      assert AlikeRow(xs[n], ys[n]);
    }
  }

  lemma {:induction false} CheckConcat(xs: seq<Incoming>, ys: seq<Incoming>, matches: Incoming -> bool)
    ensures CheckStored(xs + ys, matches).accepted == CheckStored(xs, matches).accepted + CheckStored(ys, matches).accepted
  {
    if |ys| == 0 {
      assert xs + ys == xs;
    } else {
      var n := |ys| - 1;
      CheckConcat(xs, ys[..n], matches);
      assert (xs + ys)[..|xs| + n] == xs + ys[..n];
    }
  }

  // ---------------------------------------------------------------- one row

  function OrphanIf(stored: Option<Columns>, orphan: bool): Option<Columns> {
    if stored.Some? && orphan then Some(OrphanRow(stored.value, c => true)) else stored
  }

  /** Promotion does not care whether the pending row was orphaned first. */
  lemma PromotionForgetsPending(stored: Option<Columns>, first: Option<Columns>, second: Option<Columns>, a: bool, b: bool)
    requires first.None? || second.None?
    requires first.Some? ==> first.value.status == Status.Canonical
    requires second.Some? ==> second.value.status == Status.Canonical
    ensures
      Settle(OrphanIf(Settle(OrphanIf(stored, a), first), b), second) ==
      Settle(OrphanIf(stored, a || b), if first.Some? then first else second)
  {
  }

  // ---------------------------------------------------------------- two transactions

  /** Complete canonical ingestions of a range and of its two parts. */
  predicate SplitsAt(whole: Ingestion, first: Ingestion, second: Ingestion, from: int, mid: int, to: int) {
    && 0 <= from <= mid < to <= MAX_INT4
    && IngestsCanonical(whole, Range(from, to))
    && IngestsCanonical(first, Range(from, mid))
    && IngestsCanonical(second, Range(mid + 1, to))
  }

  predicate IngestsCanonical(op: Ingestion, range: Range) {
    && op.status == Status.Canonical && op.completeRange == Some(range) && op.blockHeight == range.to
    && !op.replacePendingBranch && op.ancestry == []
  }

  /** The response for the whole range is the first response followed by the second. */
  predicate SplitRows(rows: seq<Incoming>, xs: seq<Incoming>, ys: seq<Incoming>, mid: int) {
    && Alike(rows, xs + ys) && Separate(xs, ys)
    && (forall i | 0 <= i < |xs| :: xs[i].columns.blockHeight.Some? && xs[i].columns.blockHeight.value <= mid)
    && (forall i | 0 <= i < |ys| :: ys[i].columns.blockHeight.Some? && ys[i].columns.blockHeight.value > mid)
  }

  lemma RangedSplits(
    rows: seq<Incoming>, xs: seq<Incoming>, ys: seq<Incoming>, from: int, mid: int, to: int)
    requires SplitRows(rows, xs, ys, mid) && from <= mid < to
    ensures
      var c := Status.Canonical;
      Alike(
        SplitByRange(c, rows, Range(from, to)).accepted,
        SplitByRange(c, xs, Range(from, mid)).accepted + SplitByRange(c, ys, Range(mid + 1, to)).accepted)
  {
    var c := Status.Canonical;
    RangedAlike(c, rows, xs + ys, Range(from, to), Range(from, to));
    RangedConcat(c, xs, ys, Range(from, to));
    RangedAlike(c, xs, xs, Range(from, mid), Range(from, to));
    RangedAlike(c, ys, ys, Range(mid + 1, to), Range(from, to));
    AlikeConcat(
      SplitByRange(c, xs, Range(from, to)).accepted, SplitByRange(c, xs, Range(from, mid)).accepted,
      SplitByRange(c, ys, Range(from, to)).accepted, SplitByRange(c, ys, Range(mid + 1, to)).accepted);
  }

  lemma AlikeConcat(a: seq<Incoming>, b: seq<Incoming>, c: seq<Incoming>, d: seq<Incoming>)
    requires Alike(a, b) && Alike(c, d)
    ensures Alike(a + c, b + d)
  {
  }

  lemma SeparateSublists(xs: seq<Incoming>, ys: seq<Incoming>, xs': seq<Incoming>, ys': seq<Incoming>)
    requires Separate(xs, ys)
    requires (forall x | x in xs' :: x in xs) && (forall y | y in ys' :: y in ys)
    ensures Separate(xs', ys')
  {
    forall i, j | 0 <= i < |xs'| && 0 <= j < |ys'| ensures xs'[i].identity != ys'[j].identity {
      assert xs'[i] in xs && ys'[j] in ys;
    }
  }

  /** prepareBatch of the whole response, against the content before both transactions. */
  lemma PreparedSplits(content: Content, rows: seq<Incoming>, xs: seq<Incoming>, ys: seq<Incoming>)
    requires Alike(rows, xs + ys) && Separate(xs, ys)
    ensures
      Alike(
        Prepare(content, Batch(rows, [])).accepted,
        Prepare(content, Batch(xs, [])).accepted + Prepare(content, Batch(ys, [])).accepted)
  {
    var matches := row => MatchesStored(content, row);
    DedupeAlike(rows, xs + ys);
    DedupeConcat(xs, ys, SameEvent);
    var us, vs := Dedupe(xs, SameEvent).accepted, Dedupe(ys, SameEvent).accepted;
    CheckAlike(Dedupe(rows, SameEvent).accepted, us + vs, matches);
    CheckConcat(us, vs, matches);
  }

  lemma IncomingSplits(w: seq<Incoming>, p: seq<Incoming>, q: seq<Incoming>, id: Identity)
    requires Alike(w, p + q)
    ensures IncomingFor(w, id) == if IncomingFor(p, id).Some? then IncomingFor(p, id) else IncomingFor(q, id)
  {
    FindAlike(w, p + q, id);
    FindConcat(p, q, id);
  }

  lemma StorableSplits(w: seq<Incoming>, p: seq<Incoming>, q: seq<Incoming>)
    requires Alike(w, p + q)
    ensures AllStorable(w) <==> AllStorable(p) && AllStorable(q)
  {
    if AllStorable(w) {
      forall i | 0 <= i < |p| ensures Storable(p[i]) { assert AlikeRow(w[i], (p + q)[i]) && Storable(w[i]); }
      forall j | 0 <= j < |q| ensures Storable(q[j]) {
        assert AlikeRow(w[|p| + j], (p + q)[|p| + j]) && Storable(w[|p| + j]);
      }
    }
    if AllStorable(p) && AllStorable(q) {
      forall i | 0 <= i < |w| ensures Storable(w[i]) {
        assert AlikeRow(w[i], (p + q)[i]) && (if i < |p| then Storable(p[i]) else Storable(q[i - |p|]));
      }
    }
  }

  /** Rows by identity and status: what AdvancesCanonical looks at. */
  predicate Promotes(content: Content, row: Incoming) {
    row.columns.status == Status.Canonical && !IsCanonical(content, row.identity)
  }

  lemma AdvanceSplits(content: Content, mid: Content, w: seq<Incoming>, p: seq<Incoming>, q: seq<Incoming>)
    requires Alike(w, p + q)
    requires forall j | 0 <= j < |q| :: IsCanonical(mid, q[j].identity) <==> IsCanonical(content, q[j].identity)
    ensures AdvancesCanonical(content, w) <==> AdvancesCanonical(content, p) || AdvancesCanonical(mid, q)
  {
    if AdvancesCanonical(content, w) {
      var i :| 0 <= i < |w| && w[i].columns.status == Status.Canonical && !IsCanonical(content, w[i].identity);
      assert AlikeRow(w[i], (p + q)[i]);
      assert if i < |p| then Promotes(content, p[i]) else Promotes(mid, q[i - |p|]);
    }
    if AdvancesCanonical(content, p) {
      var i :| 0 <= i < |p| && p[i].columns.status == Status.Canonical && !IsCanonical(content, p[i].identity);
      assert AlikeRow(w[i], (p + q)[i]) && Promotes(content, w[i]);
    }
    if AdvancesCanonical(mid, q) {
      var j :| 0 <= j < |q| && q[j].columns.status == Status.Canonical && !IsCanonical(mid, q[j].identity);
      assert AlikeRow(w[|p| + j], (p + q)[|p| + j]) && Promotes(content, w[|p| + j]);
    }
  }

  /** What the transaction of an ingestion upserts. */
  function UpsertedBy(content: Content, op: Ingestion): seq<Incoming> {
    Prepare(content, Ranged(op)).accepted
  }

  /** What a canonical ingestion of rows makes of the table. */
  ghost predicate CanonicalStep(before: Content, after: Content, rows: seq<Incoming>) {
    && (forall id :: Lookup(after, id) ==
          Settle(OrphanIf(Lookup(before, id), AdvancesCanonical(before, rows)), IncomingFor(rows, id)))
    && (forall i | 0 <= i < |rows| :: rows[i].columns.status == Status.Canonical)
  }

  lemma CanonicalIngestionSteps(content: Content, op: Ingestion, range: Range)
    requires ValidContent(content) && FromArchive(op.status, op.batch) && IngestsCanonical(op, range)
    requires Ingest(content, op).Success?
    ensures CanonicalStep(content, Apply(content, Ingesting(op)), UpsertedBy(content, op))
  {
    var w, rows := Ingesting(op), UpsertedBy(content, op);
    var middle, after := BeforeUpsert(content, op, Prepare(content, Ranged(op))), Apply(content, w);
    PlanIsSound(content, w);
    SoundRowsHaveStatus(content, rows, Status.Canonical);
    forall id
      ensures Lookup(after, id) == Settle(OrphanIf(Lookup(content, id), AdvancesCanonical(content, rows)), IncomingFor(rows, id))
    {
      ApplyAt(content, w, id);
      assert Lookup(middle, id) == OrphanIf(Lookup(content, id), AdvancesCanonical(content, rows));
    }
  }

  lemma SoundRowsHaveStatus(content: Content, rows: seq<Incoming>, status: Status)
    requires SoundRows(content, rows, status)
    ensures forall i | 0 <= i < |rows| :: rows[i].columns.status == status
  {
    forall i | 0 <= i < |rows| ensures rows[i].columns.status == status {
      assert SoundRow(content, rows[i], status);
    }
  }

  /** Rows the step does not observe keep what a later observation is checked against. */
  lemma StepSparesOthers(before: Content, after: Content, rows: seq<Incoming>, row: Incoming)
    requires CanonicalStep(before, after, rows) && row.identity !in Identities(rows)
    ensures MatchesStored(before, row) == MatchesStored(after, row)
    ensures IsCanonical(after, row.identity) <==> IsCanonical(before, row.identity)
  {
    FindDecidesIdentities(rows, row.identity);
    assert Lookup(after, row.identity) == OrphanIf(Lookup(before, row.identity), AdvancesCanonical(before, rows));
  }

  lemma IncomingStatus(rows: seq<Incoming>, id: Identity)
    requires forall i | 0 <= i < |rows| :: rows[i].columns.status == Status.Canonical
    ensures IncomingFor(rows, id).Some? ==> IncomingFor(rows, id).value.status == Status.Canonical
  {
  }

  /** Two steps with separate rows are one step with all of them. */
  lemma StepsCompose(
    before: Content, middle: Content, two: Content, one: Content, w: seq<Incoming>, p: seq<Incoming>, q: seq<Incoming>)
    requires CanonicalStep(before, middle, p) && CanonicalStep(middle, two, q) && CanonicalStep(before, one, w)
    requires Alike(w, p + q) && Separate(p, q)
    ensures one == two
  {
    forall j | 0 <= j < |q| ensures IsCanonical(middle, q[j].identity) <==> IsCanonical(before, q[j].identity) {
      StepSparesOthers(before, middle, p, q[j]);
    }
    AdvanceSplits(before, middle, w, p, q);
    forall id ensures Lookup(one, id) == Lookup(two, id) {
      IncomingSplits(w, p, q, id);
      IncomingStatus(p, id);
      IncomingStatus(q, id);
      PromotionForgetsPending(
        Lookup(before, id), IncomingFor(p, id), IncomingFor(q, id), AdvancesCanonical(before, p), AdvancesCanonical(middle, q));
    }
    SameLookups(one, two);
  }

  lemma CanonicalIngestionSucceeds(content: Content, op: Ingestion, range: Range)
    requires IngestsCanonical(op, range) && 0 <= range.from <= range.to <= MAX_INT4
    ensures Ingest(content, op).Success? <==> AllStorable(Prepare(content, Ranged(op)).accepted)
  {
  }

  lemma UpsertedIsObserved(content: Content, op: Ingestion)
    requires op.completeRange.Some?
    ensures forall row | row in UpsertedBy(content, op) :: row in op.batch.accepted
  {
    SplitByRangeFilters(op.status, op.batch.accepted, op.completeRange.value);
  }

  lemma UpsertedSplits(content: Content, whole: Ingestion, first: Ingestion, second: Ingestion, from: int, mid: int, to: int)
    requires SplitsAt(whole, first, second, from, mid, to)
    requires SplitRows(whole.batch.accepted, first.batch.accepted, second.batch.accepted, mid)
    ensures Alike(UpsertedBy(content, whole), UpsertedBy(content, first) + UpsertedBy(content, second))
    ensures Separate(UpsertedBy(content, first), UpsertedBy(content, second))
    ensures Separate(Ranged(first).accepted, Ranged(second).accepted)
  {
    var xs, ys := first.batch.accepted, second.batch.accepted;
    RangedSplits(whole.batch.accepted, xs, ys, from, mid, to);
    SplitByRangeFilters(Status.Canonical, xs, Range(from, mid));
    SplitByRangeFilters(Status.Canonical, ys, Range(mid + 1, to));
    SeparateSublists(xs, ys, Ranged(first).accepted, Ranged(second).accepted);
    UpsertedIsObserved(content, first);
    UpsertedIsObserved(content, second);
    SeparateSublists(xs, ys, UpsertedBy(content, first), UpsertedBy(content, second));
    PreparedSplits(content, Ranged(whole).accepted, Ranged(first).accepted, Ranged(second).accepted);
  }

  /** The second transaction upserts what it would have upserted without the first. */
  lemma SecondIsUnaffected(content: Content, first: Ingestion, second: Ingestion, range: Range)
    requires ValidContent(content) && FromArchive(first.status, first.batch) && IngestsCanonical(first, range)
    requires Ingest(content, first).Success? && Separate(Ranged(first).accepted, Ranged(second).accepted)
    ensures UpsertedBy(Apply(content, Ingesting(first)), second) == UpsertedBy(content, second)
  {
    var after, rows := Apply(content, Ingesting(first)), Ranged(second).accepted;
    CanonicalIngestionSteps(content, first, range);
    OthersAreUnaffected(content, after, UpsertedBy(content, first), Ranged(first).accepted, rows);
    DedupeIsSound(rows, SameEvent);
    PrepareAgain(content, after, Ranged(second));
  }

  lemma OthersAreUnaffected(before: Content, after: Content, part: seq<Incoming>, xs: seq<Incoming>, ys: seq<Incoming>)
    requires CanonicalStep(before, after, part) && Separate(xs, ys) && forall row | row in part :: row in xs
    ensures forall row | row in ys :: MatchesStored(before, row) == MatchesStored(after, row)
  {
    forall row | row in ys ensures MatchesStored(before, row) == MatchesStored(after, row) {
      var j :| 0 <= j < |ys| && ys[j] == row;
      NotIdentified(part, xs, ys, j);
      StepSparesOthers(before, after, part, row);
    }
  }

  lemma NotIdentified(part: seq<Incoming>, xs: seq<Incoming>, ys: seq<Incoming>, j: nat)
    requires Separate(xs, ys) && j < |ys| && forall row | row in part :: row in xs
    ensures ys[j].identity !in Identities(part)
  {
    forall i | 0 <= i < |part| ensures part[i].identity != ys[j].identity {
      assert part[i] in xs;
    }
  }

  /**
   A complete canonical range succeeds as a whole exactly when its two parts succeed
   one after the other, and then both ways leave every row the same.
   */
  lemma CanonicalRangeSplits(
    content: Content, whole: Ingestion, first: Ingestion, second: Ingestion, from: int, mid: int, to: int)
    requires ValidContent(content)
    requires FromArchive(whole.status, whole.batch) && FromArchive(first.status, first.batch) && FromArchive(second.status, second.batch)
    requires SplitsAt(whole, first, second, from, mid, to)
    requires SplitRows(whole.batch.accepted, first.batch.accepted, second.batch.accepted, mid)
    ensures Ingest(content, whole).Success? <==>
      Ingest(content, first).Success? && Ingest(Apply(content, Ingesting(first)), second).Success?
    ensures Ingest(content, whole).Success? ==>
      Apply(content, Ingesting(whole)) == Apply(Apply(content, Ingesting(first)), Ingesting(second))
  {
    var w, p, q := UpsertedBy(content, whole), UpsertedBy(content, first), UpsertedBy(content, second);
    var middle := Apply(content, Ingesting(first));
    UpsertedSplits(content, whole, first, second, from, mid, to);
    StorableSplits(w, p, q);
    CanonicalIngestionSucceeds(content, whole, Range(from, to));
    CanonicalIngestionSucceeds(content, first, Range(from, mid));
    CanonicalIngestionSucceeds(middle, second, Range(mid + 1, to));
    if Ingest(content, first).Success? {
      SecondIsUnaffected(content, first, second, Range(from, mid));
      if AllStorable(w) {
        StepKeepsTable(content, Ingesting(first));
        CanonicalIngestionSteps(content, first, Range(from, mid));
        CanonicalIngestionSteps(middle, second, Range(mid + 1, to));
        CanonicalIngestionSteps(content, whole, Range(from, to));
        StepsCompose(
          content, middle, Apply(middle, Ingesting(second)), Apply(content, Ingesting(whole)), w, p, q);
      }
    }
  }
}
