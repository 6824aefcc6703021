/** The loops of prepareBatch, proved against Transactions.Prepare. */
module Preparation {
  import opened Wrappers
  import opened Texts
  import opened Json
  import opened Rows
  import opened BlockOrder
  import opened Batches
  import opened Transactions

  /** The map holds, under its identity text, the place of every kept row. */
  ghost predicate Indexes(uniqueRows: map<Text, nat>, kept: seq<Incoming>, name: Identity -> Text) {
    && (forall i | 0 <= i < |kept| :: IndexedAt(uniqueRows, name(kept[i].identity), i))
    && (forall text | text in uniqueRows :: uniqueRows[text] < |kept| && name(kept[uniqueRows[text]].identity) == text)
  }

  predicate IndexedAt(uniqueRows: map<Text, nat>, text: Text, i: nat) {
    text in uniqueRows && uniqueRows[text] == i
  }

  ghost predicate Injective(name: Identity -> Text) {
    forall a, b :: name(a) == name(b) ==> a == b
  }

  lemma IndexFinds(uniqueRows: map<Text, nat>, kept: seq<Incoming>, name: Identity -> Text, id: Identity)
    requires Indexes(uniqueRows, kept, name) && Injective(name)
    ensures name(id) in uniqueRows <==> Find(kept, id).Some?
    ensures name(id) in uniqueRows ==> Find(kept, id).value == uniqueRows[name(id)]
  {
    if Find(kept, id).Some? {
      assert IndexedAt(uniqueRows, name(kept[Find(kept, id).value].identity), Find(kept, id).value);
    }
  }

  lemma IndexOneMore(uniqueRows: map<Text, nat>, kept: seq<Incoming>, name: Identity -> Text, row: Incoming)
    requires Indexes(uniqueRows, kept, name) && name(row.identity) !in uniqueRows
    ensures Indexes(uniqueRows[name(row.identity) := |kept|], kept + [row], name)
  {
    var more, rows := uniqueRows[name(row.identity) := |kept|], kept + [row];
    forall i | 0 <= i < |rows| ensures IndexedAt(more, name(rows[i].identity), i) {
      if i < |kept| { assert IndexedAt(uniqueRows, name(kept[i].identity), i); }
    }
  }

  /** One row meets the rows kept so far. */
  method AddCandidate(
    uniqueRows: map<Text, nat>, kept: Prepared, row: Incoming, name: Identity -> Text, matches: (Incoming, Incoming) -> bool)
    returns (uniqueRows': map<Text, nat>, kept': Prepared)
    requires Indexes(uniqueRows, kept.accepted, name) && Injective(name)
    ensures Indexes(uniqueRows', kept'.accepted, name) && kept' == DedupeStep(kept, row, matches)
  {
    uniqueRows', kept' := uniqueRows, kept;
    IndexFinds(uniqueRows, kept.accepted, name, row.identity);
    if name(row.identity) !in uniqueRows {
      IndexOneMore(uniqueRows, kept.accepted, name, row);
      uniqueRows' := uniqueRows[name(row.identity) := |kept.accepted|];
      kept' := kept.(accepted := kept.accepted + [row]);
    } else if !matches(kept.accepted[uniqueRows[name(row.identity)]], row) {
      kept' := kept.(rejected := kept.rejected + [ConflictRejection(row)]);
    } else {
      kept' := kept.(dropped := kept.dropped + [row.source]);
    }
  }

  /** The first loop: one row per identity text. */
  method DedupeRows(rows: seq<Incoming>, name: Identity -> Text, matches: (Incoming, Incoming) -> bool) returns (kept: Prepared)
    requires Injective(name)
    ensures kept == Dedupe(rows, matches)
  {
    kept := Prepared([], [], []);
    var uniqueRows: map<Text, nat> := map[];
    for n := 0 to |rows|
      invariant kept == Dedupe(rows[..n], matches) && Indexes(uniqueRows, kept.accepted, name)
    {
      assert rows[..n + 1][..n] == rows[..n];
      uniqueRows, kept := AddCandidate(uniqueRows, kept, rows[n], name, matches);
    }
    assert rows[..|rows|] == rows;
  }

  /** The second loop: candidates meet the stored rows. */
  method CheckCandidates(candidates: seq<Incoming>, matches: Incoming -> bool) returns (checked: Prepared)
    ensures checked == CheckStored(candidates, matches)
  {
    checked := Prepared([], [], []);
    for n := 0 to |candidates|
      invariant checked == CheckStored(candidates[..n], matches)
    {
      assert candidates[..n + 1][..n] == candidates[..n];
      if matches(candidates[n]) {
        checked := checked.(accepted := checked.accepted + [candidates[n]]);
      } else {
        checked := checked.(rejected := checked.rejected + [ConflictRejection(candidates[n])]);
      }
    }
    assert candidates[..|candidates|] == candidates;
  }

  lemma IdentityTextsAreInjective()
    ensures Injective(EventIdentity)
  {
    forall a, b | EventIdentity(a) == EventIdentity(b) ensures a == b {
      EventIdentityIsInjective(a, b);
    }
  }

  /** prepareBatch. */
  method PrepareBatch(content: Content, batch: Batch) returns (prepared: Prepared)
    ensures prepared == Prepare(content, batch)
  {
    IdentityTextsAreInjective();
    var unique := DedupeRows(batch.accepted, EventIdentity, SameEvent);
    var checked := CheckCandidates(unique.accepted, row => MatchesStored(content, row));
    prepared := Prepared(checked.accepted, batch.rejected + unique.rejected + checked.rejected, unique.dropped);
  }
}
