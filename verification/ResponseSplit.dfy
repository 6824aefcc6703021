/**
 From archive responses to the table: a response cut between two blocks is normalised
 part by part to the same accepted rows, because sibling counters and block positions
 do not reach across the cut; and then one canonical ingestion and two leave the same
 table. The counting lemmas come first, then block order, then the transactions.
 */
module ResponseSplit {
  import opened Wrappers
  import opened Texts
  import opened Json
  import opened Rows
  import opened Validation
  import opened BlockOrder
  import opened Batches
  import opened Transactions
  import opened Lifecycle
  import opened RangeSplit

  // ---------------------------------------------------------------- observations and verdicts

  lemma GatherNext(xs: seq<Value>, x: Value, observe: Value -> seq<Observation>)
    ensures Gather(xs + [x], observe) == Gather(xs, observe) + observe(x)
  {
    assert (xs + [x])[..|xs|] == xs;
  }

  lemma {:induction false} GatherConcat(xs: seq<Value>, ys: seq<Value>, observe: Value -> seq<Observation>)
    ensures Gather(xs + ys, observe) == Gather(xs, observe) + Gather(ys, observe)
  {
    if |ys| == 0 {
      assert xs + ys == xs;
    } else {
      var front, last := ys[..|ys| - 1], ys[|ys| - 1];
      GatherConcat(xs, front, observe);
      GatherNext(front, last, observe);
      GatherNext(xs + front, last, observe);
      assert xs + ys == (xs + front) + [last];
      assert ys == front + [last];
      Associative(Gather(xs, observe), Gather(front, observe), observe(last));
    }
  }

  lemma Associative(a: seq<Observation>, b: seq<Observation>, c: seq<Observation>)
    ensures (a + b) + c == a + (b + c)
  {
  }

  /** The two parts share no account update and no block. */
  predicate Unrelated(rules: Rules, xs: seq<Observation>, ys: seq<Observation>) {
    forall i, j | 0 <= i < |xs| && 0 <= j < |ys| :: UnrelatedPair(rules, xs[i], ys[j])
  }

  predicate UnrelatedPair(rules: Rules, x: Observation, y: Observation) {
    && (KeyOfObservation(rules, x).Some? ==> KeyOfObservation(rules, x) != KeyOfObservation(rules, y))
    && (x.height.Some? ==> x.height != y.height)
  }

  lemma {:induction false} CountKeyConcat(rules: Rules, xs: seq<Observation>, ys: seq<Observation>, key: Text)
    ensures CountKey(rules, xs + ys, key) == CountKey(rules, xs, key) + CountKey(rules, ys, key)
  {
    if |ys| == 0 {
      assert xs + ys == xs;
    } else {
      var n := |ys| - 1;
      CountKeyConcat(rules, xs, ys[..n], key);
      assert (xs + ys)[..|xs| + n] == xs + ys[..n];
    }
  }

  lemma {:induction false} CountHeightConcat(xs: seq<Observation>, ys: seq<Observation>, height: Option<int>)
    ensures CountHeight(xs + ys, height) == CountHeight(xs, height) + CountHeight(ys, height)
  {
    if |ys| == 0 {
      assert xs + ys == xs;
    } else {
      var n := |ys| - 1;
      CountHeightConcat(xs, ys[..n], height);
      assert (xs + ys)[..|xs| + n] == xs + ys[..n];
    }
  }

  lemma {:induction false} NoneCounted(rules: Rules, xs: seq<Observation>, y: Observation)
    requires forall i | 0 <= i < |xs| :: UnrelatedPair(rules, xs[i], y)
    ensures KeyOfObservation(rules, y).Some? ==> CountKey(rules, xs, KeyOfObservation(rules, y).value) == 0
    ensures y.height.Some? ==> CountHeight(xs, y.height) == 0
  {
    if |xs| > 0 {
      NoneCounted(rules, xs[..|xs| - 1], y);
      assert UnrelatedPair(rules, xs[|xs| - 1], y);
    }
  }

  lemma VerdictsConcat(rules: Rules, xs: seq<Observation>, ys: seq<Observation>)
    requires Unrelated(rules, xs, ys)
    ensures Verdicts(rules, xs + ys) == Verdicts(rules, xs) + Verdicts(rules, ys)
  {
    var all := xs + ys;
    forall k | 0 <= k < |all|
      ensures Judge(rules, all, k) == if k < |xs| then Judge(rules, xs, k) else Judge(rules, ys, k - |xs|)
    {
      if k < |xs| {
        assert all[..k] == xs[..k];
      } else {
        var j := k - |xs|;
        assert all[..k] == xs + ys[..j];
        LaterVerdict(rules, xs, ys, j);
      }
    }
  }

  lemma LaterVerdict(rules: Rules, xs: seq<Observation>, ys: seq<Observation>, j: nat)
    requires Unrelated(rules, xs, ys) && j < |ys|
    ensures Judge(rules, xs + ys, |xs| + j) == Judge(rules, ys, j)
  {
    assert (xs + ys)[..|xs| + j] == xs + ys[..j];
    NoneCounted(rules, xs, ys[j]);
    if KeyOfObservation(rules, ys[j]).Some? {
      CountKeyConcat(rules, xs, ys[..j], KeyOfObservation(rules, ys[j]).value);
    }
    CountHeightConcat(xs, ys[..j], ys[j].height);
  }

  lemma {:induction false} CollectConcat(status: Status, vs: seq<Verdict>, ws: seq<Verdict>)
    ensures Alike(Collect(status, vs + ws).accepted, Collect(status, vs).accepted + Collect(status, ws).accepted)
  {
    if |ws| == 0 {
      assert vs + ws == vs;
    } else {
      var n := |ws| - 1;
      CollectConcat(status, vs, ws[..n]);
      assert (vs + ws)[..|vs| + n] == vs + ws[..n];
    }
  }

  // ---------------------------------------------------------------- block order

  predicate NoSharedBlock(xs: seq<Incoming>, ys: seq<Incoming>) {
    forall i, j | 0 <= i < |xs| && 0 <= j < |ys| :: xs[i].columns.blockHeight != ys[j].columns.blockHeight
  }

  function Plus(i: nat, k: nat): nat {
    i + k
  }

  function Offset(s: set<nat>, k: nat): set<nat> {
    set i | i in s :: Plus(i, k)
  }

  lemma OffsetHolds(s: set<nat>, k: nat, p: nat)
    ensures p in Offset(s, k) <==> k <= p && p - k in s
  {
    if k <= p && p - k in s {
      assert Plus(p - k, k) == p;
    }
  }

  lemma {:induction false} OffsetSize(s: set<nat>, k: nat)
    ensures |Offset(s, k)| == |s|
  {
    if s != {} {
      var i :| i in s;
      OffsetSize(s - {i}, k);
      forall p: nat ensures p in Offset(s, k) <==> p in Offset(s - {i}, k) + {Plus(i, k)} {
        OffsetHolds(s, k, p);
        OffsetHolds(s - {i}, k, p);
      }
      OffsetHolds(s - {i}, k, Plus(i, k));
      assert Offset(s, k) == Offset(s - {i}, k) + {Plus(i, k)};
    }
  }

  lemma EarlierBlock(xs: seq<Incoming>, ys: seq<Incoming>, height: Option<int>, i: nat)
    requires NoSharedBlock(xs, ys) && i in Block(xs, height)
    ensures Block(xs + ys, height) == Block(xs, height)
  {
    forall k: nat ensures k in Block(xs + ys, height) <==> k in Block(xs, height) {
      if |xs| <= k < |xs + ys| {
        assert xs[i].columns.blockHeight != ys[k - |xs|].columns.blockHeight;
      }
    }
  }

  lemma LaterBlock(xs: seq<Incoming>, ys: seq<Incoming>, height: Option<int>, j: nat)
    requires NoSharedBlock(xs, ys) && j in Block(ys, height)
    ensures Block(xs + ys, height) == Offset(Block(ys, height), |xs|)
  {
    forall k: nat ensures k in Block(xs + ys, height) <==> k in Offset(Block(ys, height), |xs|) {
      OffsetHolds(Block(ys, height), |xs|, k);
      if k < |xs| {
        assert xs[k].columns.blockHeight != ys[j].columns.blockHeight;
      }
    }
  }

  /** Whether rows carry sequence numbers, as a property of chosen rows. */
  predicate SequencedAt(rows: seq<Incoming>, height: Option<int>, sequenced: bool) {
    forall i | i in Block(rows, height) :: SequenceNumber(rows[i]).Some? == sequenced
  }

  lemma SequencedAtIsDefinition(rows: seq<Incoming>, height: Option<int>)
    ensures FullySequenced(rows, height) <==> SequencedAt(rows, height, true)
    ensures Unsequenced(rows, height) <==> SequencedAt(rows, height, false)
  {
  }

  lemma EarlierSequenced(xs: seq<Incoming>, ys: seq<Incoming>, height: Option<int>, i: nat, sequenced: bool)
    requires NoSharedBlock(xs, ys) && i in Block(xs, height)
    ensures SequencedAt(xs + ys, height, sequenced) <==> SequencedAt(xs, height, sequenced)
  {
    EarlierBlock(xs, ys, height, i);
    assert forall k | k in Block(xs, height) :: (xs + ys)[k] == xs[k];
  }

  lemma LaterSequenced(xs: seq<Incoming>, ys: seq<Incoming>, height: Option<int>, j: nat, sequenced: bool)
    requires NoSharedBlock(xs, ys) && j in Block(ys, height)
    ensures SequencedAt(xs + ys, height, sequenced) <==> SequencedAt(ys, height, sequenced)
  {
    var all := xs + ys;
    LaterBlock(xs, ys, height, j);
    if SequencedAt(all, height, sequenced) {
      forall k | k in Block(ys, height) ensures SequenceNumber(ys[k]).Some? == sequenced {
        OffsetHolds(Block(ys, height), |xs|, Plus(k, |xs|));
        assert all[Plus(k, |xs|)] == ys[k];
      }
    }
    if SequencedAt(ys, height, sequenced) {
      forall k | k in Block(all, height) ensures SequenceNumber(all[k]).Some? == sequenced {
        OffsetHolds(Block(ys, height), |xs|, k);
        assert all[k] == ys[k - |xs|];
      }
    }
  }

  lemma SequencedPart(xs: seq<Incoming>, ys: seq<Incoming>, k: nat, sequenced: bool)
    requires NoSharedBlock(xs, ys) && k < |xs| + |ys|
    ensures
      var height := (xs + ys)[k].columns.blockHeight;
      SequencedAt(xs + ys, height, sequenced) <==> SequencedAt(if k < |xs| then xs else ys, height, sequenced)
  {
    var height := (xs + ys)[k].columns.blockHeight;
    if k < |xs| {
      EarlierSequenced(xs, ys, height, k, sequenced);
    } else {
      LaterSequenced(xs, ys, height, k - |xs|, sequenced);
    }
  }

  lemma SequencedConcat(xs: seq<Incoming>, ys: seq<Incoming>, k: nat)
    requires NoSharedBlock(xs, ys) && k < |xs| + |ys|
    ensures
      var all := xs + ys;
      var part := if k < |xs| then xs else ys;
      var height := all[k].columns.blockHeight;
      && (FullySequenced(all, height) <==> FullySequenced(part, height))
      && (Inconsistent(all, height) <==> Inconsistent(part, height))
  {
    var all := xs + ys;
    var part := if k < |xs| then xs else ys;
    var height := all[k].columns.blockHeight;
    SequencedAtIsDefinition(all, height);
    SequencedAtIsDefinition(part, height);
    SequencedPart(xs, ys, k, true);
    SequencedPart(xs, ys, k, false);
  }

  lemma RankConcat(xs: seq<Incoming>, ys: seq<Incoming>, k: nat)
    requires NoSharedBlock(xs, ys) && k < |xs| + |ys|
    ensures
      var all := xs + ys;
      Rank(BlockOrder.Keys(all), Block(all, all[k].columns.blockHeight), k) ==
      if k < |xs| then Rank(BlockOrder.Keys(xs), Block(xs, xs[k].columns.blockHeight), k)
      else Rank(BlockOrder.Keys(ys), Block(ys, ys[k - |xs|].columns.blockHeight), k - |xs|)
  {
    var all := xs + ys;
    var height := all[k].columns.blockHeight;
    if k < |xs| {
      EarlierBlock(xs, ys, height, k);
      assert Predecessors(BlockOrder.Keys(all), Block(all, height), k) ==
        Predecessors(BlockOrder.Keys(xs), Block(xs, height), k);
    } else {
      LaterBlock(xs, ys, height, k - |xs|);
      LaterRank(BlockOrder.Keys(xs), BlockOrder.Keys(ys), BlockOrder.Keys(all), Block(ys, height), k - |xs|);
    }
  }

  lemma LaterRank(front: seq<SortKey>, keys: seq<SortKey>, all: seq<SortKey>, block: set<nat>, j: nat)
    requires all == front + keys && j < |keys| && forall p | p in block :: p < |keys|
    requires forall p | p in Offset(block, |front|) :: p < |all|
    ensures Rank(all, Offset(block, |front|), |front| + j) == Rank(keys, block, j)
  {
    var k := |front|;
    var later, shifted := Predecessors(keys, block, j), Predecessors(all, Offset(block, k), k + j);
    forall p: nat ensures p in shifted <==> p in Offset(later, k) {
      OffsetHolds(block, k, p);
      OffsetHolds(later, k, p);
    }
    assert shifted == Offset(later, k);
    OffsetSize(later, k);
  }

  lemma AssignedConcat(xs: seq<Incoming>, ys: seq<Incoming>)
    requires NoSharedBlock(xs, ys)
    ensures Assigned(xs + ys) == Assigned(xs) + Assigned(ys)
  {
    var all := xs + ys;
    forall k | 0 <= k < |all|
      ensures AssignedRow(all, k) == if k < |xs| then AssignedRow(xs, k) else AssignedRow(ys, k - |xs|)
    {
      RankConcat(xs, ys, k);
      SequencedConcat(xs, ys, k);
    }
  }

  lemma MixedPart(xs: seq<Incoming>, ys: seq<Incoming>, k: nat)
    requires NoSharedBlock(xs, ys) && k < |xs| + |ys|
    ensures k in MixedRows(xs + ys) <==> if k < |xs| then k in MixedRows(xs) else k - |xs| in MixedRows(ys)
  {
    assert (xs + ys)[k] == if k < |xs| then xs[k] else ys[k - |xs|];
    SequencedConcat(xs, ys, k);
  }

  lemma MixedConcat(xs: seq<Incoming>, ys: seq<Incoming>)
    requires NoSharedBlock(xs, ys)
    ensures forall k: nat | k < |xs| :: k in MixedRows(xs + ys) <==> k in MixedRows(xs)
    ensures forall j: nat | j < |ys| :: |xs| + j in MixedRows(xs + ys) <==> j in MixedRows(ys)
  {
    forall k: nat | k < |xs| + |ys|
      ensures k in MixedRows(xs + ys) <==> if k < |xs| then k in MixedRows(xs) else k - |xs| in MixedRows(ys)
    {
      MixedPart(xs, ys, k);
    }
    PartsOfSet(MixedRows(xs + ys), MixedRows(xs), MixedRows(ys), |xs|, |ys|);
  }

  lemma PartsOfSet(all: set<nat>, front: set<nat>, back: set<nat>, m: nat, n: nat)
    requires forall k: nat | k < m + n :: k in all <==> if k < m then k in front else k - m in back
    ensures forall k: nat | k < m :: k in all <==> k in front
    ensures forall j: nat | j < n :: m + j in all <==> j in back
  {
    forall j: nat | j < n ensures m + j in all <==> j in back {
      assert (m + j) - m == j;
    }
  }

  lemma {:induction false} SetAsidePrefix(status: Status, xs: seq<Incoming>, m: set<nat>, n: set<nat>)
    requires forall k: nat | k < |xs| :: k in m <==> k in n
    ensures SetAside(status, xs, m) == SetAside(status, xs, n)
  {
    if |xs| > 0 {
      SetAsidePrefix(status, xs[..|xs| - 1], m, n);
    }
  }

  lemma {:induction false} SetAsideConcat(
    status: Status, xs: seq<Incoming>, ys: seq<Incoming>, m: set<nat>, n: set<nat>)
    requires forall j: nat | j < |ys| :: |xs| + j in m <==> j in n
    ensures SetAside(status, xs + ys, m).accepted == SetAside(status, xs, m).accepted + SetAside(status, ys, n).accepted
  {
    if |ys| == 0 {
      assert xs + ys == xs;
    } else {
      var k := |ys| - 1;
      SetAsideConcat(status, xs, ys[..k], m, n);
      assert (xs + ys)[..|xs| + k] == xs + ys[..k];
      assert |xs| + k in m <==> k in n;
    }
  }

  lemma {:induction false} SetAsideAlike(status: Status, xs: seq<Incoming>, ys: seq<Incoming>, m: set<nat>)
    requires Alike(xs, ys)
    ensures Alike(SetAside(status, xs, m).accepted, SetAside(status, ys, m).accepted)
  {
    if |xs| > 0 {
      SetAsideAlike(status, xs[..|xs| - 1], ys[..|ys| - 1], m);
    }
  }

  /** Block order does not look at arrival positions. */
  lemma OrderAlike(xs: seq<Incoming>, ys: seq<Incoming>)
    requires Alike(xs, ys)
    ensures Alike(Assigned(xs), Assigned(ys)) && MixedRows(xs) == MixedRows(ys)
  {
    assert BlockOrder.Keys(xs) == BlockOrder.Keys(ys);
    forall height: Option<int>
      ensures Block(xs, height) == Block(ys, height)
      ensures FullySequenced(xs, height) == FullySequenced(ys, height)
      ensures Inconsistent(xs, height) == Inconsistent(ys, height)
    {
      BlockAlike(xs, ys, height);
    }
  }

  lemma BlockAlike(xs: seq<Incoming>, ys: seq<Incoming>, height: Option<int>)
    requires Alike(xs, ys)
    ensures Block(xs, height) == Block(ys, height)
    ensures FullySequenced(xs, height) == FullySequenced(ys, height)
    ensures Inconsistent(xs, height) == Inconsistent(ys, height)
  {
    assert forall i | 0 <= i < |xs| :: AlikeRow(xs[i], ys[i]);
    assert Block(xs, height) == Block(ys, height);
  }

  /** The ordering step of buildBatch. */
  function Ordered(status: Status, rows: seq<Incoming>): seq<Incoming> {
    SetAside(status, Assigned(rows), MixedRows(rows)).accepted
  }

  lemma OrderedConcat(status: Status, xs: seq<Incoming>, ys: seq<Incoming>)
    requires NoSharedBlock(xs, ys)
    ensures Ordered(status, xs + ys) == Ordered(status, xs) + Ordered(status, ys)
  {
    var m, n := MixedRows(xs + ys), MixedRows(ys);
    AssignedConcat(xs, ys);
    MixedConcat(xs, ys);
    SetAsideConcat(status, Assigned(xs), Assigned(ys), m, n);
    SetAsidePrefix(status, Assigned(xs), m, MixedRows(xs));
  }

  lemma OrderedAlike(status: Status, xs: seq<Incoming>, ys: seq<Incoming>)
    requires Alike(xs, ys)
    ensures Alike(Ordered(status, xs), Ordered(status, ys))
  {
    OrderAlike(xs, ys);
    SetAsideAlike(status, Assigned(xs), Assigned(ys), MixedRows(xs));
  }

  // ---------------------------------------------------------------- whole responses

  /** Every collected row sits in the block of some observation. */
  lemma {:induction false} CollectedRowsHaveBlocks(env: Env, status: Status, obs: seq<Observation>, vs: seq<Verdict>, i: nat)
    returns (k: nat)
    requires |vs| <= |obs| && forall k | 0 <= k < |vs| :: vs[k] == Judge(RulesFor(env, status), obs, k)
    requires i < |Collect(status, vs).accepted|
    ensures k < |obs| && obs[k].height.Some?
    ensures Collect(status, vs).accepted[i].columns.blockHeight == obs[k].height
  {
    var n := |vs| - 1;
    if i < |Collect(status, vs[..n]).accepted| {
      k := CollectedRowsHaveBlocks(env, status, obs, vs[..n], i);
    } else {
      k := n;
      AcceptedVerdictHasBlock(env, status, obs, n);
    }
  }

  lemma AcceptedVerdictHasBlock(env: Env, status: Status, obs: seq<Observation>, k: nat)
    requires k < |obs| && Judge(RulesFor(env, status), obs, k).Accept?
    ensures obs[k].height.Some?
    ensures Judge(RulesFor(env, status), obs, k).observed.columns.blockHeight == obs[k].height
  {
  }

  lemma PartsShareNoBlock(env: Env, status: Status, xs: seq<Observation>, ys: seq<Observation>)
    requires Unrelated(RulesFor(env, status), xs, ys)
    ensures
      var rules := RulesFor(env, status);
      NoSharedBlock(Collect(status, Verdicts(rules, xs)).accepted, Collect(status, Verdicts(rules, ys)).accepted)
  {
    var rules := RulesFor(env, status);
    var vs, ws := Verdicts(rules, xs), Verdicts(rules, ys);
    var p, q := Collect(status, vs).accepted, Collect(status, ws).accepted;
    forall i, j | 0 <= i < |p| && 0 <= j < |q| ensures p[i].columns.blockHeight != q[j].columns.blockHeight {
      var k := CollectedRowsHaveBlocks(env, status, xs, vs, i);
      var l := CollectedRowsHaveBlocks(env, status, ys, ws, j);
      assert UnrelatedPair(rules, xs[k], ys[l]);
    }
  }

  /**
   A response cut where no block and no account update is cut: the whole gives the
   accepted rows of the first part followed by those of the second.
   */
  lemma BuildBatchSplits(env: Env, status: Status, xs: seq<Value>, ys: seq<Value>)
    requires Unrelated(RulesFor(env, status), Flatten(xs), Flatten(ys))
    ensures Alike(
      BuildBatch(env, status, xs + ys).accepted,
      BuildBatch(env, status, xs).accepted + BuildBatch(env, status, ys).accepted)
  {
    var rules := RulesFor(env, status);
    var vs, ws := Verdicts(rules, Flatten(xs)), Verdicts(rules, Flatten(ys));
    GatherConcat(xs, ys, Observe);
    VerdictsConcat(rules, Flatten(xs), Flatten(ys));
    PartsShareNoBlock(env, status, Flatten(xs), Flatten(ys));
    FinishSplits(status, vs, ws);
  }

  lemma FinishSplits(status: Status, vs: seq<Verdict>, ws: seq<Verdict>)
    requires NoSharedBlock(Collect(status, vs).accepted, Collect(status, ws).accepted)
    ensures Alike(Finish(status, vs + ws).accepted, Finish(status, vs).accepted + Finish(status, ws).accepted)
  {
    var p, q := Collect(status, vs).accepted, Collect(status, ws).accepted;
    CollectConcat(status, vs, ws);
    OrderedAlike(status, Collect(status, vs + ws).accepted, p + q);
    OrderedConcat(status, p, q);
  }

  predicate HeightsWithin(obs: seq<Observation>, from: int, to: int) {
    forall k | 0 <= k < |obs| && obs[k].height.Some? :: from <= obs[k].height.value <= to
  }

  /** No account update reports events in both parts. */
  predicate NoSharedSiblings(rules: Rules, xs: seq<Observation>, ys: seq<Observation>) {
    forall i, j | 0 <= i < |xs| && 0 <= j < |ys| && KeyOfObservation(rules, xs[i]).Some? ::
      KeyOfObservation(rules, xs[i]) != KeyOfObservation(rules, ys[j])
  }

  lemma CutBetweenBlocks(rules: Rules, xs: seq<Observation>, ys: seq<Observation>, mid: int, top: int)
    requires HeightsWithin(xs, 0, mid) && HeightsWithin(ys, mid + 1, top) && NoSharedSiblings(rules, xs, ys)
    ensures Unrelated(rules, xs, ys)
  {
  }

  lemma AcceptedRowsHaveBlocks(env: Env, status: Status, outputs: seq<Value>, from: int, to: int)
    requires HeightsWithin(Flatten(outputs), from, to)
    ensures AllWithin(BuildBatch(env, status, outputs).accepted, from, to)
  {
    var obs := Flatten(outputs);
    var vs := Verdicts(RulesFor(env, status), obs);
    var rows := Collect(status, vs).accepted;
    forall i | 0 <= i < |rows| ensures WithinBlock(rows[i], from, to) {
      var k := CollectedRowsHaveBlocks(env, status, obs, vs, i);
    }
    var ordered := Ordered(status, rows);
    SetAsideIsSublist(status, Assigned(rows), MixedRows(rows));
    forall i | 0 <= i < |ordered| ensures WithinBlock(ordered[i], from, to) {
      assert ordered[i] in ordered;
      var j :| 0 <= j < |rows| && Assigned(rows)[j] == ordered[i];
      assert WithinBlock(rows[j], from, to);
    }
  }

  predicate WithinBlock(row: Incoming, from: int, to: int) {
    row.columns.blockHeight.Some? && from <= row.columns.blockHeight.value <= to
  }

  /** An ingestion of an archive response. */
  predicate Responds(op: Ingestion, env: Env, outputs: seq<Value>) {
    (forall i | 0 <= i < |outputs| :: WellFormed(outputs[i])) && op.batch == BuildBatch(env, op.status, outputs)
  }

  /**
   Canonical range splitting, from archive responses to rows: cut a response between
   two blocks, so that no account update and no event identity is in both parts; then
   ingesting it whole succeeds exactly when ingesting the parts in order does, with
   the same rows in the end.
   */
  lemma CanonicalResponseSplits(
    content: Content, env: Env, xs: seq<Value>, ys: seq<Value>,
    whole: Ingestion, first: Ingestion, second: Ingestion, from: int, mid: int, to: int, top: int)
    requires ValidContent(content) && SplitsAt(whole, first, second, from, mid, to)
    requires Responds(whole, env, xs + ys) && Responds(first, env, xs) && Responds(second, env, ys)
    requires HeightsWithin(Flatten(xs), 0, mid) && HeightsWithin(Flatten(ys), mid + 1, top)
    requires NoSharedSiblings(RulesFor(env, Status.Canonical), Flatten(xs), Flatten(ys))
    requires Separate(first.batch.accepted, second.batch.accepted)
    ensures Ingest(content, whole).Success? <==>
      Ingest(content, first).Success? && Ingest(Apply(content, Ingesting(first)), second).Success?
    ensures Ingest(content, whole).Success? ==>
      Apply(content, Ingesting(whole)) == Apply(Apply(content, Ingesting(first)), Ingesting(second))
  {
    var c := Status.Canonical;
    assert BuiltFrom(env, xs + ys, c, whole.batch) && BuiltFrom(env, xs, c, first.batch) && BuiltFrom(env, ys, c, second.batch);
    CutBetweenBlocks(RulesFor(env, c), Flatten(xs), Flatten(ys), mid, top);
    BuildBatchSplits(env, c, xs, ys);
    AcceptedRowsHaveBlocks(env, c, xs, 0, mid);
    AcceptedRowsHaveBlocks(env, c, ys, mid + 1, top);
    CanonicalRangeSplits(content, whole, first, second, from, mid, to);
  }
}
