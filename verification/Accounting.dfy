/**
 Where every reported event ends up, through all three filters of an ingestion, and
 which index its earlier siblings give it.
 */
module Accounting {
  import opened Wrappers
  import opened Texts
  import opened Json
  import opened Rows
  import opened Validation
  import opened BlockOrder
  import opened Batches
  import opened Transactions

  /** How often observation p was dropped as an exact duplicate. */
  function DroppedTimes(dropped: seq<nat>, p: nat): nat {
    if |dropped| == 0 then 0
    else DroppedTimes(dropped[..|dropped| - 1], p) + if dropped[|dropped| - 1] == p then 1 else 0
  }

  function PreparedTimes(prepared: Prepared, p: nat): nat {
    AcceptedTimes(prepared.accepted, p) + RejectedTimes(prepared.rejected, p) + DroppedTimes(prepared.dropped, p)
  }

  lemma DroppedTimesAppend(dropped: seq<nat>, source: nat, p: nat)
    ensures DroppedTimes(dropped + [source], p) == DroppedTimes(dropped, p) + if source == p then 1 else 0
  {
    assert (dropped + [source])[..|dropped|] == dropped;
  }

  lemma DedupeStepAccounts(front: Prepared, row: Incoming, matches: (Incoming, Incoming) -> bool, p: nat)
    ensures PreparedTimes(DedupeStep(front, row, matches), p) == PreparedTimes(front, p) + if row.source == p then 1 else 0
  {
    AcceptedTimesAppend(front.accepted, row, p);
    RejectedTimesAppend(front.rejected, ConflictRejection(row), p);
    DroppedTimesAppend(front.dropped, row.source, p);
  }

  lemma {:induction false} DedupeAccounts(rows: seq<Incoming>, matches: (Incoming, Incoming) -> bool, p: nat)
    ensures PreparedTimes(Dedupe(rows, matches), p) == AcceptedTimes(rows, p)
  {
    if |rows| > 0 {
      var n := |rows| - 1;
      DedupeAccounts(rows[..n], matches, p);
      DedupeStepAccounts(Dedupe(rows[..n], matches), rows[n], matches, p);
    }
  }

  lemma CheckStepAccounts(front: Prepared, row: Incoming, matches: bool, p: nat)
    ensures PreparedTimes(CheckStep(front, row, matches), p) == PreparedTimes(front, p) + if row.source == p then 1 else 0
    ensures CheckStep(front, row, matches).dropped == front.dropped
  {
    AcceptedTimesAppend(front.accepted, row, p);
    RejectedTimesAppend(front.rejected, ConflictRejection(row), p);
  }

  lemma {:induction false} CheckAccounts(rows: seq<Incoming>, matches: Incoming -> bool, p: nat)
    ensures PreparedTimes(CheckStored(rows, matches), p) == AcceptedTimes(rows, p)
    ensures CheckStored(rows, matches).dropped == []
  {
    if |rows| > 0 {
      var n := |rows| - 1;
      CheckAccounts(rows[..n], matches, p);
      CheckStepAccounts(CheckStored(rows[..n], matches), rows[n], matches(rows[n]), p);
    }
  }

  lemma PrepareAccounts(content: Content, batch: Batch, p: nat)
    ensures PreparedTimes(Prepare(content, batch), p) == Times(batch, p)
  {
    var unique := Dedupe(batch.accepted, SameEvent);
    var matches := row => MatchesStored(content, row);
    var checked := CheckStored(unique.accepted, matches);
    DedupeAccounts(batch.accepted, SameEvent, p);
    CheckAccounts(unique.accepted, matches, p);
    RejectedTimesOfConcat(batch.rejected, unique.rejected, p);
    RejectedTimesOfConcat(batch.rejected + unique.rejected, checked.rejected, p);
    assert Prepare(content, batch) == Prepared(checked.accepted, batch.rejected + unique.rejected + checked.rejected, unique.dropped);
  }

  /**
   Every entry of a response, and every output without an event list, ends up as
   exactly one accepted row, one rejection or one dropped exact duplicate.
   */
  lemma EveryObservationEndsOnce(content: Content, env: Env, op: Ingestion, outputs: seq<Value>, p: nat)
    requires op.batch == BuildBatch(env, op.status, outputs)
    ensures PreparedTimes(Prepare(content, Ranged(op)), p) == if p < |Flatten(outputs)| then 1 else 0
  {
    BuildBatchAccountsForAll(env, op.status, outputs, p);
    if op.completeRange.Some? {
      EnforceCompleteRangeAccounts(op.batch, op.status, op.completeRange.value, p);
    }
    PrepareAccounts(content, Ranged(op), p);
  }

  // ---------------------------------------------------------------- sibling index

  predicate AreSiblings(a: Value, b: Value) {
    IsIdentified(a) && IsIdentified(b) && TransactionHash(a) == TransactionHash(b) && AccountUpdateIdOf(a) == AccountUpdateIdOf(b)
  }

  function CountSiblings(obs: seq<Observation>, entry: Value): nat {
    if |obs| == 0 then 0
    else
      var o := obs[|obs| - 1];
      CountSiblings(obs[..|obs| - 1], entry) + if o.Entry? && AreSiblings(o.entry, entry) then 1 else 0
  }

  lemma {:induction false} CountKeyCountsSiblings(rules: Rules, obs: seq<Observation>, entry: Value)
    requires forall e :: rules.siblingKey(e) == SiblingKey(e)
    requires IsIdentified(entry)
    ensures CountKey(rules, obs, SiblingKey(entry).value) == CountSiblings(obs, entry)
  {
    if |obs| > 0 {
      var o := obs[|obs| - 1];
      CountKeyCountsSiblings(rules, obs[..|obs| - 1], entry);
      if o.Entry? && IsIdentified(o.entry) {
        SiblingKeyIsExact(o.entry, entry);
      }
    }
  }

  /** Row r was accepted from entry r.source, with the index its earlier siblings give it. */
  predicate Traces(obs: seq<Observation>, r: Incoming) {
    && r.source < |obs| && obs[r.source].Entry? && IsIdentified(obs[r.source].entry)
    && r.identity.txHash == TransactionHash(obs[r.source].entry)
    && r.identity.eventIndex == CountSiblings(obs[..r.source], obs[r.source].entry)
  }

  lemma AcceptedVerdictTraces(env: Env, status: Status, obs: seq<Observation>, n: nat)
    requires n < |obs| && Judge(RulesFor(env, status), obs, n).Accept?
    ensures
      var o := Judge(RulesFor(env, status), obs, n).observed;
      Traces(obs, Incoming(n, o.identity, o.columns))
  {
    var rules := RulesFor(env, status);
    var entry := obs[n].entry;
    AcceptedIsIdentified(env, status, obs[n].height, obs[n].blockInfo, entry, EventIndexAt(rules, obs, n), BlockIndexAt(obs, n));
    CountKeyCountsSiblings(rules, obs[..n], entry);
  }

  lemma AcceptedIsIdentified(
    env: Env, status: Status, height: Option<int>, blockInfo: Value, entry: Value,
    eventIndex: Option<nat>, blockEventIndex: Option<nat>)
    requires EntryVerdict(env, status, height, blockInfo, entry, eventIndex, blockEventIndex).Accept?
    ensures
      var o := EntryVerdict(env, status, height, blockInfo, entry, eventIndex, blockEventIndex).observed;
      IsIdentified(entry) && eventIndex == Some(o.identity.eventIndex) && o.identity.txHash == TransactionHash(entry)
  {
  }

  lemma {:induction false} CollectTraces(env: Env, status: Status, obs: seq<Observation>, vs: seq<Verdict>, i: nat)
    requires |vs| <= |obs| && forall k | 0 <= k < |vs| :: vs[k] == Judge(RulesFor(env, status), obs, k)
    requires i < |Collect(status, vs).accepted|
    ensures Traces(obs, Collect(status, vs).accepted[i])
  {
    var n := |vs| - 1;
    if i < |Collect(status, vs[..n]).accepted| {
      CollectTraces(env, status, obs, vs[..n], i);
    } else {
      AcceptedVerdictTraces(env, status, obs, n);
    }
  }

  /**
   The event index of every accepted row is the number of earlier entries in the
   response that name the same account update, whether those were valid or not.
   */
  lemma EventIndexCountsSiblings(env: Env, status: Status, outputs: seq<Value>, row: Incoming)
    requires row in BuildBatch(env, status, outputs).accepted
    ensures Traces(Flatten(outputs), row)
  {
    var obs := Flatten(outputs);
    var vs := Verdicts(RulesFor(env, status), obs);
    var rows := Collect(status, vs).accepted;
    SetAsideIsSublist(status, Assigned(rows), MixedRows(rows));
    var j :| 0 <= j < |rows| && Assigned(rows)[j] == row;
    CollectTraces(env, status, obs, vs, j);
  }
}
