/**
 An archive may list the account updates of a block in any order. As long as the
 events inside each account update keep theirs, the accepted rows and their block
 event indexes come out the same.
 */
module ArrivalOrder {
  import opened Wrappers
  import opened Texts
  import opened Json
  import opened Rows
  import opened Validation
  import opened BlockOrder
  import opened Batches

  /** The entries of one account update, in arrival order. */
  function Project(rules: Rules, obs: seq<Observation>, key: Text): seq<Observation> {
    if |obs| == 0 then []
    else
      var n := |obs| - 1;
      Project(rules, obs[..n], key) + if KeyOfObservation(rules, obs[n]) == Some(key) then [obs[n]] else []
  }

  /** Two responses that list every account update's events alike. */
  ghost predicate SameSiblings(rules: Rules, xs: seq<Observation>, ys: seq<Observation>) {
    forall key :: Project(rules, xs, key) == Project(rules, ys, key)
  }

  /** A row without its arrival position and its provisional block index. */
  function Essence(o: Observed): Observed {
    o.(columns := o.columns.(blockEventIndex := 0))
  }

  function EssenceOf(row: Incoming): Observed {
    Essence(Observed(row.identity, row.columns))
  }

  function Blind(v: Verdict): Option<Observed> {
    if v.Accept? then Some(Essence(v.observed)) else None
  }

  /** Rules that reject entries without a sibling key and do not look at the block index. */
  ghost predicate OrderBlind(rules: Rules) {
    && (forall h, b, e, j :: rules.judge(h, b, e, None, j).Reject?)
    && (forall h, b, e, i, j, k :: Blind(rules.judge(h, b, e, i, j)) == Blind(rules.judge(h, b, e, i, k)))
  }

  lemma ValidationIsOrderBlind(env: Env, status: Status)
    ensures OrderBlind(RulesFor(env, status))
  {
    forall h, b, e, j ensures EntryVerdict(env, status, h, b, e, None, j).Reject? {
      MissingIndexIsRejected(env, e);
    }
  }

  lemma MissingIndexIsRejected(env: Env, entry: Value)
    ensures ResolveEntry(env, entry, None).Failure?
  {
  }

  // ---------------------------------------------------------------- siblings

  lemma {:induction false} ProjectCounts(rules: Rules, obs: seq<Observation>, key: Text)
    ensures |Project(rules, obs, key)| == CountKey(rules, obs, key)
  {
    if |obs| > 0 {
      ProjectCounts(rules, obs[..|obs| - 1], key);
    }
  }

  /** An entry stands in its projection at its event index. */
  lemma {:induction false} ProjectionHolds(rules: Rules, obs: seq<Observation>, key: Text, i: nat)
    requires i < |obs| && KeyOfObservation(rules, obs[i]) == Some(key)
    ensures CountKey(rules, obs[..i], key) < |Project(rules, obs, key)|
    ensures Project(rules, obs, key)[CountKey(rules, obs[..i], key)] == obs[i]
  {
    var n := |obs| - 1;
    if i == n {
      ProjectCounts(rules, obs[..n], key);
    } else {
      ProjectionHolds(rules, obs[..n], key, i);
      assert obs[..n][..i] == obs[..i];
    }
  }

  /** Every place of a projection is taken by some entry of the response. */
  lemma {:induction false} ProjectionIsTaken(rules: Rules, obs: seq<Observation>, key: Text, p: nat) returns (i: nat)
    requires p < |Project(rules, obs, key)|
    ensures i < |obs| && KeyOfObservation(rules, obs[i]) == Some(key)
    ensures obs[i] == Project(rules, obs, key)[p] && CountKey(rules, obs[..i], key) == p
  {
    var n := |obs| - 1;
    ProjectCounts(rules, obs[..n], key);
    if p == CountKey(rules, obs[..n], key) {
      i := n;
    } else {
      i := ProjectionIsTaken(rules, obs[..n], key, p);
      assert obs[..n][..i] == obs[..i];
    }
  }

  /** The same entry with the same siblings before it gets the same verdict. */
  lemma SameVerdict(rules: Rules, xs: seq<Observation>, ys: seq<Observation>, i: nat) returns (j: nat)
    requires OrderBlind(rules) && SameSiblings(rules, xs, ys)
    requires i < |xs| && Judge(rules, xs, i).Accept?
    ensures j < |ys| && Blind(Judge(rules, ys, j)) == Blind(Judge(rules, xs, i))
  {
    assert xs[i].Entry?;
    var key := KeyOfObservation(rules, xs[i]);
    var at := EventIndexAt(rules, xs, i);
    assert at.Some? && key.Some?;
    var p := CountKey(rules, xs[..i], key.value);
    ProjectionHolds(rules, xs, key.value, i);
    assert Project(rules, xs, key.value) == Project(rules, ys, key.value);
    j := ProjectionIsTaken(rules, ys, key.value, p);
    assert EventIndexAt(rules, xs, i) == EventIndexAt(rules, ys, j) == Some(p);
  }

  function Content(row: Incoming): Observed {
    Observed(row.identity, row.columns)
  }

  ghost function Essences(rows: seq<Incoming>): set<Observed> {
    set i | 0 <= i < |rows| :: EssenceOf(rows[i])
  }

  ghost function AcceptedEssences(vs: seq<Verdict>): set<Observed> {
    set i | 0 <= i < |vs| && vs[i].Accept? :: Essence(vs[i].observed)
  }

  lemma {:induction false} CollectKeepsEssences(status: Status, vs: seq<Verdict>)
    ensures Essences(Collect(status, vs).accepted) == AcceptedEssences(vs)
  {
    if |vs| > 0 {
      var n := |vs| - 1;
      CollectKeepsEssences(status, vs[..n]);
      var front, rows := Collect(status, vs[..n]).accepted, Collect(status, vs).accepted;
      forall e ensures e in AcceptedEssences(vs) <==> e in AcceptedEssences(vs[..n]) || Blind(vs[n]) == Some(e) {
        if e in AcceptedEssences(vs) {
          var i :| 0 <= i < |vs| && vs[i].Accept? && Essence(vs[i].observed) == e;
          if i < n { assert vs[..n][i] == vs[i]; }
        }
        if e in AcceptedEssences(vs[..n]) {
          var i :| 0 <= i < n && vs[..n][i].Accept? && Essence(vs[..n][i].observed) == e;
          assert vs[i].Accept? && Essence(vs[i].observed) == e;
        }
      }
      forall e ensures e in Essences(rows) <==> e in Essences(front) || Blind(vs[n]) == Some(e) {
        if e in Essences(rows) {
          var i :| 0 <= i < |rows| && EssenceOf(rows[i]) == e;
          if i < |front| { assert rows[i] == front[i]; }
        }
        if e in Essences(front) {
          var i :| 0 <= i < |front| && EssenceOf(front[i]) == e;
          assert rows[i] == front[i];
        }
        if Blind(vs[n]) == Some(e) {
          assert EssenceOf(rows[|front|]) == e;
        }
      }
    }
  }

  lemma AcceptedEssencesGrow(rules: Rules, xs: seq<Observation>, ys: seq<Observation>)
    requires OrderBlind(rules) && SameSiblings(rules, xs, ys)
    ensures AcceptedEssences(Verdicts(rules, xs)) <= AcceptedEssences(Verdicts(rules, ys))
  {
    var vs, ws := Verdicts(rules, xs), Verdicts(rules, ys);
    forall e | e in AcceptedEssences(vs) ensures e in AcceptedEssences(ws) {
      var i :| 0 <= i < |vs| && vs[i].Accept? && Essence(vs[i].observed) == e;
      var j := SameVerdict(rules, xs, ys, i);
      assert Blind(ws[j]) == Blind(vs[i]);
    }
  }

  /** The accepted rows, apart from their positions, do not depend on the arrival order. */
  lemma AcceptedRowsIgnoreArrival(env: Env, status: Status, xs: seq<Observation>, ys: seq<Observation>)
    requires SameSiblings(RulesFor(env, status), xs, ys)
    ensures
      var rules := RulesFor(env, status);
      Essences(Collect(status, Verdicts(rules, xs)).accepted) == Essences(Collect(status, Verdicts(rules, ys)).accepted)
  {
    var rules := RulesFor(env, status);
    ValidationIsOrderBlind(env, status);
    AcceptedEssencesGrow(rules, xs, ys);
    AcceptedEssencesGrow(rules, ys, xs);
    CollectKeepsEssences(status, Verdicts(rules, xs));
    CollectKeepsEssences(status, Verdicts(rules, ys));
  }

  // ---------------------------------------------------------------- no row is accepted twice

  /** The sibling key under which a row was counted. */
  function KeyText(o: Observed): Text {
    PairText(o.identity.txHash, o.columns.accountUpdateId)
  }

  lemma EntryNamesItsKey(
    env: Env, status: Status, height: Option<int>, blockInfo: Value, entry: Value,
    eventIndex: Option<nat>, blockEventIndex: Option<nat>)
    requires EntryVerdict(env, status, height, blockInfo, entry, eventIndex, blockEventIndex).Accept?
    ensures
      var o := EntryVerdict(env, status, height, blockInfo, entry, eventIndex, blockEventIndex).observed;
      SiblingKey(entry) == Some(KeyText(o)) && eventIndex == Some(o.identity.eventIndex)
  {
    AcceptedEntryPassesStages(
      env, status, height, blockInfo, entry, eventIndex, if blockEventIndex.Some? then blockEventIndex.value else 0);
    EntryKeepsItsHash(env, entry, eventIndex);
  }

  lemma EntryKeepsItsHash(env: Env, entry: Value, eventIndex: Option<nat>)
    requires ResolveEntry(env, entry, eventIndex).Success?
    ensures ResolveEntry(env, entry, eventIndex).value.identity.txHash == TransactionHash(entry)
  {
  }

  lemma AcceptedIsCounted(env: Env, status: Status, obs: seq<Observation>, i: nat)
    requires i < |obs| && Judge(RulesFor(env, status), obs, i).Accept?
    ensures
      var rules := RulesFor(env, status);
      var o := Judge(rules, obs, i).observed;
      KeyOfObservation(rules, obs[i]) == Some(KeyText(o)) && o.identity.eventIndex == CountKey(rules, obs[..i], KeyText(o))
  {
    var rules := RulesFor(env, status);
    EntryNamesItsKey(
      env, status, obs[i].height, obs[i].blockInfo, obs[i].entry, EventIndexAt(rules, obs, i), BlockIndexAt(obs, i));
  }

  lemma {:induction false} CountPasses(rules: Rules, obs: seq<Observation>, key: Text, i: nat, j: nat)
    requires i < j <= |obs| && KeyOfObservation(rules, obs[i]) == Some(key)
    ensures CountKey(rules, obs[..i], key) < CountKey(rules, obs[..j], key)
  {
    assert obs[..j][..j - 1] == obs[..j - 1];
    if i < j - 1 {
      CountPasses(rules, obs, key, i, j - 1);
    }
  }

  /** Two entries of a response are never accepted as the same row. */
  lemma AcceptedDiffer(env: Env, status: Status, obs: seq<Observation>, i: nat, j: nat)
    requires i < j < |obs|
    requires Judge(RulesFor(env, status), obs, i).Accept? && Judge(RulesFor(env, status), obs, j).Accept?
    ensures Essence(Judge(RulesFor(env, status), obs, i).observed) != Essence(Judge(RulesFor(env, status), obs, j).observed)
  {
    var rules := RulesFor(env, status);
    var a, b := Judge(rules, obs, i).observed, Judge(rules, obs, j).observed;
    AcceptedIsCounted(env, status, obs, i);
    AcceptedIsCounted(env, status, obs, j);
    if Essence(a) == Essence(b) {
      assert a.identity == b.identity && a.columns.accountUpdateId == Essence(a).columns.accountUpdateId;
      assert KeyText(a) == KeyText(b);
      CountPasses(rules, obs, KeyText(a), i, j);
    }
  }

  /** Accepted rows come from accepted verdicts, in order. */
  lemma {:induction false} CollectComesFrom(status: Status, vs: seq<Verdict>, i: nat)
    requires i < |Collect(status, vs).accepted|
    ensures
      var row := Collect(status, vs).accepted[i];
      row.source < |vs| && vs[row.source] == Accept(Content(row))
    ensures forall j | i < j < |Collect(status, vs).accepted| ::
      Collect(status, vs).accepted[i].source < Collect(status, vs).accepted[j].source
  {
    var n := |vs| - 1;
    if i < |Collect(status, vs[..n]).accepted| {
      CollectComesFrom(status, vs[..n], i);
    }
  }

  ghost predicate DistinctEssences(rows: seq<Incoming>) {
    forall i, j | 0 <= i < j < |rows| :: EssenceOf(rows[i]) != EssenceOf(rows[j])
  }

  lemma AcceptedRowsAreDistinct(env: Env, status: Status, obs: seq<Observation>)
    ensures DistinctEssences(Collect(status, Verdicts(RulesFor(env, status), obs)).accepted)
  {
    var vs := Verdicts(RulesFor(env, status), obs);
    var rows := Collect(status, vs).accepted;
    forall i, j | 0 <= i < j < |rows| ensures EssenceOf(rows[i]) != EssenceOf(rows[j]) {
      CollectComesFrom(status, vs, i);
      CollectComesFrom(status, vs, j);
      AcceptedDiffer(env, status, obs, rows[i].source, rows[j].source);
    }
  }

  // ---------------------------------------------------------------- final block order

  /** What a batch stores for one block: rows with their final block event indexes. */
  ghost function FinalBlock(rows: seq<Incoming>, height: Option<int>): set<Observed> {
    set i | i in Block(rows, height) :: Content(AssignedRow(rows, i))
  }

  lemma EssencesGiveKeys(rows: seq<Incoming>, height: Option<int>)
    ensures SortKeySet(rows, height) ==
      set e | e in Essences(rows) && e.columns.blockHeight == height :: KeyOf(Incoming(0, e.identity, e.columns))
    ensures FullySequenced(rows, height) <==>
      forall e | e in Essences(rows) && e.columns.blockHeight == height :: SequenceNumber(Incoming(0, e.identity, e.columns)).Some?
  {
    forall i | i in Block(rows, height)
      ensures EssenceOf(rows[i]) in Essences(rows)
      ensures KeyOf(rows[i]) == KeyOf(Incoming(0, EssenceOf(rows[i]).identity, EssenceOf(rows[i]).columns))
    {
    }
    forall e | e in Essences(rows) && e.columns.blockHeight == height
      ensures exists i :: i in Block(rows, height) && EssenceOf(rows[i]) == e
    {
      var i :| 0 <= i < |rows| && EssenceOf(rows[i]) == e;
      assert i in Block(rows, height);
    }
  }

  /** Sort keys that are distinct in one arrival are distinct in every other. */
  lemma DistinctKeysCarryOver(xs: seq<Incoming>, ys: seq<Incoming>, height: Option<int>)
    requires Essences(xs) == Essences(ys) && DistinctEssences(ys) && DistinctSortKeys(xs, height)
    ensures DistinctSortKeys(ys, height)
  {
    forall i, j | i in Block(ys, height) && j in Block(ys, height) && i < j ensures KeyOf(ys[i]) != KeyOf(ys[j]) {
      assert EssenceOf(ys[i]) in Essences(xs) && EssenceOf(ys[j]) in Essences(xs);
      var k :| 0 <= k < |xs| && EssenceOf(xs[k]) == EssenceOf(ys[i]);
      var l :| 0 <= l < |xs| && EssenceOf(xs[l]) == EssenceOf(ys[j]);
      assert k in Block(xs, height) && l in Block(xs, height) && k != l;
      EssenceGivesKey(xs[k], ys[i]);
      EssenceGivesKey(xs[l], ys[j]);
    }
  }

  lemma EssenceGivesKey(a: Incoming, b: Incoming)
    requires EssenceOf(a) == EssenceOf(b)
    ensures KeyOf(a) == KeyOf(b) && a.columns.blockHeight == b.columns.blockHeight
  {
    assert EssenceOf(a).columns.rawEventData == a.columns.rawEventData;
  }

  lemma FinalBlockGrows(xs: seq<Incoming>, ys: seq<Incoming>, height: Option<int>)
    requires Essences(xs) == Essences(ys)
    requires FullySequenced(xs, height) && DistinctSortKeys(xs, height) && DistinctSortKeys(ys, height)
    ensures FullySequenced(ys, height) && FinalBlock(xs, height) <= FinalBlock(ys, height)
  {
    EssencesGiveKeys(xs, height);
    EssencesGiveKeys(ys, height);
    forall o | o in FinalBlock(xs, height) ensures o in FinalBlock(ys, height) {
      var i :| i in Block(xs, height) && Content(AssignedRow(xs, i)) == o;
      assert EssenceOf(xs[i]) in Essences(ys);
      var j :| 0 <= j < |ys| && EssenceOf(ys[j]) == EssenceOf(xs[i]);
      assert j in Block(ys, height);
      BlockIndexIgnoresArrival(xs, ys, height, i, j);
      assert Content(AssignedRow(ys, j)) == o;
    }
  }

  /**
   A fully sequenced block with distinct sort keys is stored the same, block event
   indexes included, for every arrival order that keeps the siblings in order.
   */
  lemma FinalBlockIgnoresArrival(env: Env, status: Status, xs: seq<Observation>, ys: seq<Observation>, height: Option<int>)
    requires SameSiblings(RulesFor(env, status), xs, ys)
    requires
      var rows := Collect(status, Verdicts(RulesFor(env, status), xs)).accepted;
      FullySequenced(rows, height) && DistinctSortKeys(rows, height)
    ensures
      var rules := RulesFor(env, status);
      FinalBlock(Collect(status, Verdicts(rules, xs)).accepted, height) ==
      FinalBlock(Collect(status, Verdicts(rules, ys)).accepted, height)
  {
    var rules := RulesFor(env, status);
    var rows, sows := Collect(status, Verdicts(rules, xs)).accepted, Collect(status, Verdicts(rules, ys)).accepted;
    AcceptedRowsIgnoreArrival(env, status, xs, ys);
    AcceptedRowsAreDistinct(env, status, ys);
    DistinctKeysCarryOver(rows, sows, height);
    FinalBlockGrows(rows, sows, height);
    FinalBlockGrows(sows, rows, height);
  }
}
