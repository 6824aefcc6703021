/**
 Normalisation of an archive response into accepted rows and rejections: buildBatch,
 reserveEventIndex and enforceCompleteRange as functions of the response. An entry is
 judged by its own fields and by how many entries before it share its sibling key or
 its block, so a verdict does not depend on anything that comes later.
 */
module Batches {
  import opened Wrappers
  import opened Texts
  import opened Json
  import opened Rows
  import opened Validation
  import opened BlockOrder

  /** One thing an archive response reports: an event entry, or an output without an event list. */
  datatype Observation =
    | Entry(blockInfo: Value, height: Option<int>, entry: Value)
    | Unlisted(height: Option<int>, code: Code)

  /** source is the position of the observation in the response. */
  datatype Rejection = Rejection(
    source: nat, archiveStatus: Status, blockHeight: Option<int>, blockEventIndex: Option<int>, code: Code)

  datatype Batch = Batch(accepted: seq<Incoming>, rejected: seq<Rejection>)

  function HeightOf(blockInfo: Value): (h: Option<int>)
    ensures Nonnegative(h)
  {
    var height := Field(blockInfo, Name("height"));
    if IsSafeNatural(height) then Some(height.n) else None
  }

  /** What one output reports, in source order. */
  function Observe(output: Value): seq<Observation> {
    var blockInfo := Field(output, Name("blockInfo"));
    var list := Field(output, Name("eventData"));
    var height := HeightOf(blockInfo);
    if IsAbsent(list) then [Unlisted(height, if height.None? then InvalidBlockHeight else InvalidEventList)]
    else if !list.Arr? then [Unlisted(height, InvalidEventList)]
    else EntriesOf(blockInfo, list.items)
  }

  function EntriesOf(blockInfo: Value, items: seq<Value>): (r: seq<Observation>)
    ensures |r| == |items|
    ensures forall i | 0 <= i < |items| :: r[i] == Entry(blockInfo, HeightOf(blockInfo), items[i])
  {
    seq(|items|, i requires 0 <= i < |items| => Entry(blockInfo, HeightOf(blockInfo), items[i]))
  }

  function Gather(outputs: seq<Value>, observe: Value -> seq<Observation>): seq<Observation> {
    if |outputs| == 0 then [] else Gather(outputs[..|outputs| - 1], observe) + observe(outputs[|outputs| - 1])
  }

  function Flatten(outputs: seq<Value>): seq<Observation> {
    Gather(outputs, Observe)
  }

  /** What becomes of one observation before blocks are put in order. */
  datatype Verdict = Accept(observed: Observed) | Reject(height: Option<int>, blockEventIndex: Option<int>, code: Code)

  /** How entries are keyed and judged; the counting below is the same for any rules. */
  datatype Rules = Rules(
    siblingKey: Value -> Option<Text>,
    judge: (Option<int>, Value, Value, Option<nat>, Option<nat>) -> Verdict)

  /** The try and catch blocks for one entry with its reserved indexes. */
  function EntryVerdict(
    env: Env, status: Status, height: Option<int>, blockInfo: Value, entry: Value,
    eventIndex: Option<nat>, blockEventIndex: Option<nat>): Verdict
  {
    match Validate(env, status, height, blockInfo, entry, eventIndex, if blockEventIndex.Some? then blockEventIndex.value else 0)
    case Success(observed) => Accept(observed)
    case Failure(code) => Reject(height, blockEventIndex, code)
  }

  function RulesFor(env: Env, status: Status): Rules {
    Rules(
      entry => SiblingKey(entry),
      (height, blockInfo, entry, eventIndex, blockEventIndex) =>
        EntryVerdict(env, status, height, blockInfo, entry, eventIndex, blockEventIndex))
  }

  function KeyOfObservation(rules: Rules, o: Observation): Option<Text> {
    if o.Entry? then rules.siblingKey(o.entry) else None
  }

  /** How many entries of a response so far share a sibling key, valid or not. */
  function CountKey(rules: Rules, obs: seq<Observation>, key: Text): nat {
    if |obs| == 0 then 0
    else
      CountKey(rules, obs[..|obs| - 1], key) + KeyStep(rules, obs[|obs| - 1], key)
  }

  function KeyStep(rules: Rules, o: Observation, key: Text): nat {
    if KeyOfObservation(rules, o) == Some(key) then 1 else 0
  }

  /** How many entries of a response so far sit in a block, valid or not. */
  function CountHeight(obs: seq<Observation>, height: Option<int>): nat {
    if |obs| == 0 then 0
    else
      CountHeight(obs[..|obs| - 1], height) + HeightStep(obs[|obs| - 1], height)
  }

  function HeightStep(o: Observation, height: Option<int>): nat {
    if o.Entry? && o.height == height then 1 else 0
  }

  /** The event index the i-th observation reserves: its earlier siblings, counted. */
  function EventIndexAt(rules: Rules, obs: seq<Observation>, i: nat): Option<nat>
    requires i < |obs|
  {
    match KeyOfObservation(rules, obs[i])
    case None => None
    case Some(key) => Some(CountKey(rules, obs[..i], key))
  }

  function BlockIndexAt(obs: seq<Observation>, i: nat): Option<nat>
    requires i < |obs|
  {
    if obs[i].Entry? && obs[i].height.Some? then Some(CountHeight(obs[..i], obs[i].height)) else None
  }

  function Judge(rules: Rules, obs: seq<Observation>, i: nat): Verdict
    requires i < |obs|
  {
    match obs[i]
    case Unlisted(height, code) => Reject(height, None, code)
    case Entry(blockInfo, height, entry) =>
      rules.judge(height, blockInfo, entry, EventIndexAt(rules, obs, i), BlockIndexAt(obs, i))
  }

  function Verdicts(rules: Rules, obs: seq<Observation>): (vs: seq<Verdict>)
    ensures |vs| == |obs| && forall i | 0 <= i < |obs| :: vs[i] == Judge(rules, obs, i)
  {
    seq(|obs|, i requires 0 <= i < |obs| => Judge(rules, obs, i))
  }

  /** The accepted and rejected lists as buildBatch fills them. */
  function Collect(status: Status, vs: seq<Verdict>): Batch {
    if |vs| == 0 then Batch([], [])
    else
      var n := |vs| - 1;
      var front := Collect(status, vs[..n]);
      match vs[n]
      case Accept(o) => Batch(front.accepted + [Incoming(n, o.identity, o.columns)], front.rejected)
      case Reject(height, at, code) => Batch(front.accepted, front.rejected + [Rejection(n, status, height, at, code)])
  }

  function MixedRejection(status: Status, row: Incoming): Rejection {
    Rejection(row.source, status, row.columns.blockHeight, Some(row.columns.blockEventIndex), IncompleteTransactionSequence)
  }

  /** The rows of mixed blocks move to the rejections. */
  function SetAside(status: Status, rows: seq<Incoming>, mixed: set<nat>): Batch {
    if |rows| == 0 then Batch([], [])
    else
      var n := |rows| - 1;
      var front := SetAside(status, rows[..n], mixed);
      if n in mixed then Batch(front.accepted, front.rejected + [MixedRejection(status, rows[n])])
      else Batch(front.accepted + [rows[n]], front.rejected)
  }

  /** buildBatch as a function of the verdicts. */
  function Finish(status: Status, vs: seq<Verdict>): Batch {
    var collected := Collect(status, vs);
    var ordered := SetAside(status, Assigned(collected.accepted), MixedRows(collected.accepted));
    Batch(ordered.accepted, collected.rejected + ordered.rejected)
  }

  /** buildBatch as a function of the response. */
  function BuildBatch(env: Env, status: Status, outputs: seq<Value>): Batch {
    Finish(status, Verdicts(RulesFor(env, status), Flatten(outputs)))
  }

  datatype Range = Range(from: int, to: int)

  predicate InRange(row: Incoming, range: Range) {
    row.columns.blockHeight.Some? && range.from <= row.columns.blockHeight.value <= range.to
  }

  function OutsideRejection(status: Status, row: Incoming): Rejection {
    Rejection(row.source, status, row.columns.blockHeight, Some(row.columns.blockEventIndex), EventOutsideCompleteRange)
  }

  function SplitByRange(status: Status, rows: seq<Incoming>, range: Range): Batch {
    if |rows| == 0 then Batch([], [])
    else
      var n := |rows| - 1;
      var front := SplitByRange(status, rows[..n], range);
      if InRange(rows[n], range) then Batch(front.accepted + [rows[n]], front.rejected)
      else Batch(front.accepted, front.rejected + [OutsideRejection(status, rows[n])])
  }

  /** enforceCompleteRange: rows outside the requested heights become rejections. */
  function EnforceCompleteRange(batch: Batch, status: Status, range: Range): Batch {
    var parts := SplitByRange(status, batch.accepted, range);
    Batch(parts.accepted, batch.rejected + parts.rejected)
  }

  // ---------------------------------------------------------------- accepted rows are valid

  /** What every later step may rely on about an accepted row. */
  predicate ValidColumns(c: Columns) {
    Valid(c) && StoredPayload(c.rawEventData) && c.blockHeight.Some? && c.blockEventIndex >= 0
  }

  predicate ValidRow(row: Incoming, status: Status) {
    && ValidColumns(row.columns) && row.columns.status == status
    && row.identity.accountUpdateIndex >= 0 && row.identity.eventIndex >= 0
    && row.columns.pendingSeenAtHeight == if status == Pending then row.columns.blockHeight else None
  }

  predicate ValidRows(rows: seq<Incoming>, status: Status) {
    forall i | 0 <= i < |rows| :: ValidRow(rows[i], status)
  }

  predicate ValidVerdict(v: Verdict, status: Status) {
    v.Accept? ==> ValidRow(Incoming(0, v.observed.identity, v.observed.columns), status)
  }

  predicate WellFormedObservation(o: Observation) {
    o.Entry? ==> WellFormed(o.entry) && Nonnegative(o.height)
  }

  lemma EntryVerdictIsValid(
    env: Env, status: Status, height: Option<int>, blockInfo: Value, entry: Value,
    eventIndex: Option<nat>, blockEventIndex: Option<nat>)
    requires WellFormed(entry) && Nonnegative(height)
    ensures ValidVerdict(EntryVerdict(env, status, height, blockInfo, entry, eventIndex, blockEventIndex), status)
  {
    if EntryVerdict(env, status, height, blockInfo, entry, eventIndex, blockEventIndex).Accept? {
      ValidatedColumnsAreValid(
        env, status, height, blockInfo, entry, eventIndex, if blockEventIndex.Some? then blockEventIndex.value else 0);
    }
  }

  lemma {:induction false} CollectIsValid(status: Status, vs: seq<Verdict>)
    requires forall i | 0 <= i < |vs| :: ValidVerdict(vs[i], status)
    ensures ValidRows(Collect(status, vs).accepted, status)
  {
    if |vs| > 0 {
      CollectIsValid(status, vs[..|vs| - 1]);
    }
  }

  lemma AssignedIsValid(rows: seq<Incoming>, status: Status)
    requires ValidRows(rows, status)
    ensures ValidRows(Assigned(rows), status)
  {
    forall i | 0 <= i < |rows| ensures ValidRow(Assigned(rows)[i], status) {
      assert ValidRow(rows[i], status);
    }
  }

  lemma {:induction false} SetAsideIsSublist(status: Status, rows: seq<Incoming>, mixed: set<nat>)
    ensures forall row :: row in SetAside(status, rows, mixed).accepted ==> row in rows
  {
    if |rows| > 0 {
      SetAsideIsSublist(status, rows[..|rows| - 1], mixed);
    }
  }

  lemma FieldIsWellFormed(v: Value, key: Text)
    requires WellFormed(v)
    ensures WellFormed(Field(v, key))
  {
  }

  lemma ObserveIsWellFormed(output: Value)
    requires WellFormed(output)
    ensures forall i | 0 <= i < |Observe(output)| :: WellFormedObservation(Observe(output)[i])
  {
    FieldIsWellFormed(output, Name("eventData"));
  }

  lemma {:induction false} FlattenIsWellFormed(outputs: seq<Value>)
    requires forall i | 0 <= i < |outputs| :: WellFormed(outputs[i])
    ensures forall i | 0 <= i < |Flatten(outputs)| :: WellFormedObservation(Flatten(outputs)[i])
  {
    if |outputs| > 0 {
      var front, last := outputs[..|outputs| - 1], outputs[|outputs| - 1];
      FlattenIsWellFormed(front);
      ObserveIsWellFormed(last);
      assert Flatten(outputs) == Flatten(front) + Observe(last);
    }
  }

  /** Every accepted row of a batch is fit for the upsert and has the status of the batch. */
  lemma BuildBatchIsValid(env: Env, status: Status, outputs: seq<Value>)
    requires forall i | 0 <= i < |outputs| :: WellFormed(outputs[i])
    ensures ValidRows(BuildBatch(env, status, outputs).accepted, status)
  {
    var obs, rules := Flatten(outputs), RulesFor(env, status);
    var vs := Verdicts(rules, obs);
    FlattenIsWellFormed(outputs);
    forall i | 0 <= i < |vs| ensures ValidVerdict(vs[i], status) {
      assert WellFormedObservation(obs[i]);
      if obs[i].Entry? {
        EntryVerdictIsValid(
          env, status, obs[i].height, obs[i].blockInfo, obs[i].entry, EventIndexAt(rules, obs, i), BlockIndexAt(obs, i));
      }
    }
    FinishIsValid(status, vs);
  }

  lemma FinishIsValid(status: Status, vs: seq<Verdict>)
    requires forall i | 0 <= i < |vs| :: ValidVerdict(vs[i], status)
    ensures ValidRows(Finish(status, vs).accepted, status)
  {
    var collected := Collect(status, vs).accepted;
    CollectIsValid(status, vs);
    AssignedIsValid(collected, status);
    var ordered := SetAside(status, Assigned(collected), MixedRows(collected)).accepted;
    SetAsideIsSublist(status, Assigned(collected), MixedRows(collected));
    forall i | 0 <= i < |ordered| ensures ValidRow(ordered[i], status) {
      assert ordered[i] in ordered;
    }
  }

  lemma {:induction false} SplitByRangeFilters(status: Status, rows: seq<Incoming>, range: Range)
    ensures forall row :: row in SplitByRange(status, rows, range).accepted <==> row in rows && InRange(row, range)
  {
    if |rows| > 0 {
      var n := |rows| - 1;
      SplitByRangeFilters(status, rows[..n], range);
      assert rows == rows[..n] + [rows[n]];
    }
  }

  // ---------------------------------------------------------------- accounting

  /** How often observation p occurs among the accepted rows. */
  function AcceptedTimes(rows: seq<Incoming>, p: nat): nat {
    if |rows| == 0 then 0
    else AcceptedTimes(rows[..|rows| - 1], p) + if rows[|rows| - 1].source == p then 1 else 0
  }

  /** How often observation p occurs among the rejections. */
  function RejectedTimes(rs: seq<Rejection>, p: nat): nat {
    if |rs| == 0 then 0
    else RejectedTimes(rs[..|rs| - 1], p) + if rs[|rs| - 1].source == p then 1 else 0
  }

  function Times(batch: Batch, p: nat): nat {
    AcceptedTimes(batch.accepted, p) + RejectedTimes(batch.rejected, p)
  }

  lemma AcceptedTimesAppend(rows: seq<Incoming>, row: Incoming, p: nat)
    ensures AcceptedTimes(rows + [row], p) == AcceptedTimes(rows, p) + if row.source == p then 1 else 0
  {
    assert (rows + [row])[..|rows|] == rows;
  }

  lemma RejectedTimesAppend(rs: seq<Rejection>, r: Rejection, p: nat)
    ensures RejectedTimes(rs + [r], p) == RejectedTimes(rs, p) + if r.source == p then 1 else 0
  {
    assert (rs + [r])[..|rs|] == rs;
  }

  lemma {:induction false} RejectedTimesOfConcat(a: seq<Rejection>, b: seq<Rejection>, p: nat)
    ensures RejectedTimes(a + b, p) == RejectedTimes(a, p) + RejectedTimes(b, p)
  {
    if |b| == 0 {
      assert a + b == a;
    } else {
      var n := |b| - 1;
      RejectedTimesOfConcat(a, b[..n], p);
      assert (a + b)[..|a + b| - 1] == a + b[..n];
    }
  }

  lemma {:induction false} CollectAccountsForAll(status: Status, vs: seq<Verdict>, p: nat)
    ensures Times(Collect(status, vs), p) == if p < |vs| then 1 else 0
  {
    if |vs| > 0 {
      var n := |vs| - 1;
      var front := Collect(status, vs[..n]);
      CollectAccountsForAll(status, vs[..n], p);
      match vs[n]
      case Accept(o) => AcceptedTimesAppend(front.accepted, Incoming(n, o.identity, o.columns), p);
      case Reject(height, at, code) => RejectedTimesAppend(front.rejected, Rejection(n, status, height, at, code), p);
    }
  }

  lemma {:induction false} SetAsideAccountsForAll(status: Status, rows: seq<Incoming>, mixed: set<nat>, p: nat)
    ensures Times(SetAside(status, rows, mixed), p) == AcceptedTimes(rows, p)
  {
    if |rows| > 0 {
      var n := |rows| - 1;
      var front := SetAside(status, rows[..n], mixed);
      SetAsideAccountsForAll(status, rows[..n], mixed, p);
      AcceptedTimesAppend(front.accepted, rows[n], p);
      RejectedTimesAppend(front.rejected, MixedRejection(status, rows[n]), p);
    }
  }

  lemma {:induction false} SplitByRangeAccounts(status: Status, rows: seq<Incoming>, range: Range, p: nat)
    ensures Times(SplitByRange(status, rows, range), p) == AcceptedTimes(rows, p)
  {
    if |rows| > 0 {
      var n := |rows| - 1;
      var front := SplitByRange(status, rows[..n], range);
      SplitByRangeAccounts(status, rows[..n], range, p);
      AcceptedTimesAppend(front.accepted, rows[n], p);
      RejectedTimesAppend(front.rejected, OutsideRejection(status, rows[n]), p);
    }
  }

  lemma {:induction false} TimesDependOnSources(a: seq<Incoming>, b: seq<Incoming>, p: nat)
    requires |a| == |b| && forall i | 0 <= i < |a| :: a[i].source == b[i].source
    ensures AcceptedTimes(a, p) == AcceptedTimes(b, p)
  {
    if |a| > 0 {
      TimesDependOnSources(a[..|a| - 1], b[..|b| - 1], p);
    }
  }

  /** Every observation of a response ends up accepted or rejected, exactly once. */
  lemma BuildBatchAccountsForAll(env: Env, status: Status, outputs: seq<Value>, p: nat)
    ensures Times(BuildBatch(env, status, outputs), p) == if p < |Flatten(outputs)| then 1 else 0
  {
    FinishAccountsForAll(status, Verdicts(RulesFor(env, status), Flatten(outputs)), p);
  }

  lemma FinishAccountsForAll(status: Status, vs: seq<Verdict>, p: nat)
    ensures Times(Finish(status, vs), p) == if p < |vs| then 1 else 0
  {
    var collected := Collect(status, vs);
    var rows, mixed := Assigned(collected.accepted), MixedRows(collected.accepted);
    CollectAccountsForAll(status, vs, p);
    TimesDependOnSources(rows, collected.accepted, p);
    SetAsideAccountsForAll(status, rows, mixed, p);
    RejectedTimesOfConcat(collected.rejected, SetAside(status, rows, mixed).rejected, p);
  }

  lemma EnforceCompleteRangeAccounts(batch: Batch, status: Status, range: Range, p: nat)
    ensures Times(EnforceCompleteRange(batch, status, range), p) == Times(batch, p)
  {
    SplitByRangeAccounts(status, batch.accepted, range, p);
    RejectedTimesOfConcat(batch.rejected, SplitByRange(status, batch.accepted, range).rejected, p);
  }
}
