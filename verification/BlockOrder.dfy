/**
 Same-block event order. For a block whose rows all carry a transaction sequence
 number, assignBlockEventIndexes sorts the rows and numbers them from zero.
 */
module BlockOrder {
  import opened Wrappers
  import opened Texts
  import opened Json
  import opened Rows
  import opened Validation

  /** A row ready for the upsert. source stands for the identity of the row object. */
  datatype Incoming = Incoming(source: nat, identity: Identity, columns: Columns)

  function SequenceNumber(row: Incoming): Option<int> {
    match Field(TransactionInfo(row.columns.rawEventData), Name("sequenceNumber"))
    case Int(n) => if -MAX_SAFE_INTEGER <= n <= MAX_SAFE_INTEGER then Some(n) else None
    case _ => None
  }

  datatype SortKey = SortKey(sequence: int, accountUpdateIndex: int, eventIndex: int, txHash: Text)

  function KeyOf(row: Incoming): SortKey {
    SortKey(
      if SequenceNumber(row).Some? then SequenceNumber(row).value else 0,
      row.identity.accountUpdateIndex, row.identity.eventIndex, row.identity.txHash)
  }

  /** The comparator of the block sort is negative. */
  predicate Before(a: SortKey, b: SortKey) {
    if a.sequence != b.sequence then a.sequence < b.sequence
    else if a.accountUpdateIndex != b.accountUpdateIndex then a.accountUpdateIndex < b.accountUpdateIndex
    else if a.eventIndex != b.eventIndex then a.eventIndex < b.eventIndex
    else Less(a.txHash, b.txHash)
  }

  lemma BeforeIsStrictTotal(a: SortKey, b: SortKey)
    ensures !Before(a, a)
    ensures Before(a, b) || a == b || Before(b, a)
    ensures !(Before(a, b) && Before(b, a))
  {
    LessIsStrictTotal(a.txHash, b.txHash);
  }

  lemma BeforeIsTransitive(a: SortKey, b: SortKey, c: SortKey)
    requires Before(a, b) && Before(b, c)
    ensures Before(a, c)
  {
    if Less(a.txHash, b.txHash) && Less(b.txHash, c.txHash) {
      LessIsTransitive(a.txHash, b.txHash, c.txHash);
    }
  }

  /** The order of a stable sort: ties keep their place. */
  predicate StableBefore(keys: seq<SortKey>, i: nat, j: nat)
    requires i < |keys| && j < |keys|
  {
    Before(keys[i], keys[j]) || (keys[i] == keys[j] && i < j)
  }

  lemma StableBeforeIsStrictTotal(keys: seq<SortKey>, i: nat, j: nat)
    requires i < |keys| && j < |keys|
    ensures !StableBefore(keys, i, i)
    ensures i != j ==> (StableBefore(keys, i, j) <==> !StableBefore(keys, j, i))
  {
    BeforeIsStrictTotal(keys[i], keys[j]);
    BeforeIsStrictTotal(keys[i], keys[i]);
  }

  lemma StableBeforeIsTransitive(keys: seq<SortKey>, i: nat, j: nat, k: nat)
    requires i < |keys| && j < |keys| && k < |keys|
    requires StableBefore(keys, i, j) && StableBefore(keys, j, k)
    ensures StableBefore(keys, i, k)
  {
    if Before(keys[i], keys[j]) && Before(keys[j], keys[k]) {
      BeforeIsTransitive(keys[i], keys[j], keys[k]);
    }
  }

  function Keys(rows: seq<Incoming>): (ks: seq<SortKey>)
    ensures |ks| == |rows| && forall i | 0 <= i < |rows| :: ks[i] == KeyOf(rows[i])
  {
    seq(|rows|, i requires 0 <= i < |rows| => KeyOf(rows[i]))
  }

  /** The positions of the rows of one block. */
  function Block(rows: seq<Incoming>, height: Option<int>): set<nat> {
    set i: nat | i < |rows| && rows[i].columns.blockHeight == height
  }

  predicate FullySequenced(rows: seq<Incoming>, height: Option<int>) {
    forall i | i in Block(rows, height) :: SequenceNumber(rows[i]).Some?
  }

  predicate Unsequenced(rows: seq<Incoming>, height: Option<int>) {
    forall i | i in Block(rows, height) :: SequenceNumber(rows[i]).None?
  }

  /** Some rows of the block carry a sequence number and some do not. */
  predicate Inconsistent(rows: seq<Incoming>, height: Option<int>) {
    !FullySequenced(rows, height) && !Unsequenced(rows, height)
  }

  /** How many positions of the block come before position i. */
  function Predecessors(keys: seq<SortKey>, block: set<nat>, i: nat): set<nat>
    requires i < |keys| && forall j | j in block :: j < |keys|
  {
    set j | j in block && StableBefore(keys, j, i)
  }

  function Rank(keys: seq<SortKey>, block: set<nat>, i: nat): nat
    requires i < |keys| && forall j | j in block :: j < |keys|
  {
    |Predecessors(keys, block, i)|
  }

  function Assigned(rows: seq<Incoming>): (r: seq<Incoming>)
    ensures |r| == |rows|
    ensures forall i | 0 <= i < |rows| :: r[i] == AssignedRow(rows, i)
  {
    seq(|rows|, i requires 0 <= i < |rows| => AssignedRow(rows, i))
  }

  function AssignedRow(rows: seq<Incoming>, i: nat): Incoming
    requires i < |rows|
  {
    var height := rows[i].columns.blockHeight;
    if FullySequenced(rows, height) then Numbered(rows[i], Rank(Keys(rows), Block(rows, height), i)) else rows[i]
  }

  function Numbered(row: Incoming, blockEventIndex: nat): Incoming {
    row.(columns := row.columns.(blockEventIndex := blockEventIndex))
  }

  // ---------------------------------------------------------------- ranks number a block

  lemma PredecessorsGrow(keys: seq<SortKey>, block: set<nat>, i: nat, j: nat)
    requires forall p | p in block :: p < |keys|
    requires i in block && j in block && StableBefore(keys, i, j)
    ensures Rank(keys, block, i) < Rank(keys, block, j)
  {
    var p, q := Predecessors(keys, block, i), Predecessors(keys, block, j);
    forall k | k in p ensures k in q {
      StableBeforeIsTransitive(keys, k, i, j);
    }
    StableBeforeIsStrictTotal(keys, i, j);
    assert i in q - p && p <= q - {i};
    SubsetIsSmaller(p, q - {i});
  }

  lemma {:induction false} SubsetIsSmaller(a: set<nat>, b: set<nat>)
    requires a <= b
    ensures |a| <= |b|
    ensures |a| == |b| ==> a == b
  {
    assert b == a + (b - a);
  }

  /** The naturals below n. */
  function UpTo(n: nat): (r: set<nat>)
    ensures |r| == n && forall k: nat :: k in r <==> k < n
  {
    if n == 0 then {} else UpTo(n - 1) + {n - 1}
  }

  lemma RankIsBounded(keys: seq<SortKey>, block: set<nat>, i: nat)
    requires forall p | p in block :: p < |keys|
    requires i in block
    ensures Rank(keys, block, i) < |block|
  {
    StableBeforeIsStrictTotal(keys, i, i);
    SubsetIsSmaller(Predecessors(keys, block, i), block - {i});
  }

  lemma RankFollowsOrder(keys: seq<SortKey>, block: set<nat>, i: nat, j: nat)
    requires forall p | p in block :: p < |keys|
    requires i in block && j in block
    ensures StableBefore(keys, i, j) <==> Rank(keys, block, i) < Rank(keys, block, j)
    ensures i == j <==> Rank(keys, block, i) == Rank(keys, block, j)
  {
    StableBeforeIsStrictTotal(keys, i, j);
    if StableBefore(keys, i, j) { PredecessorsGrow(keys, block, i, j); }
    if StableBefore(keys, j, i) { PredecessorsGrow(keys, block, j, i); }
  }

  ghost function Ranks(keys: seq<SortKey>, block: set<nat>, part: set<nat>): set<nat>
    requires part <= block && forall p | p in block :: p < |keys|
  {
    set i | i in part :: Rank(keys, block, i)
  }

  lemma {:induction false} RanksAreDistinct(keys: seq<SortKey>, block: set<nat>, part: set<nat>)
    requires part <= block && forall p | p in block :: p < |keys|
    ensures |Ranks(keys, block, part)| == |part|
  {
    if part != {} {
      var i :| i in part;
      RanksAreDistinct(keys, block, part - {i});
      forall j | j in part - {i} ensures Rank(keys, block, j) != Rank(keys, block, i) {
        RankFollowsOrder(keys, block, i, j);
      }
      assert Ranks(keys, block, part) == Ranks(keys, block, part - {i}) + {Rank(keys, block, i)};
    }
  }

  lemma RanksFillTheBlock(keys: seq<SortKey>, block: set<nat>)
    requires forall p | p in block :: p < |keys|
    ensures Ranks(keys, block, block) == UpTo(|block|)
  {
    var ranks := Ranks(keys, block, block);
    forall r | r in ranks ensures r in UpTo(|block|) {
      var i :| i in block && Rank(keys, block, i) == r;
      RankIsBounded(keys, block, i);
    }
    RanksAreDistinct(keys, block, block);
    SubsetIsSmaller(ranks, UpTo(|block|));
  }

  /** The ranks of a block are 0..n-1, each given once, in sorted order. */
  lemma RanksNumberTheBlock(keys: seq<SortKey>, block: set<nat>)
    requires forall p | p in block :: p < |keys|
    ensures Ranks(keys, block, block) == UpTo(|block|)
    ensures forall i, j | i in block && j in block ::
      StableBefore(keys, i, j) <==> Rank(keys, block, i) < Rank(keys, block, j)
  {
    RanksFillTheBlock(keys, block);
    forall i, j | i in block && j in block
      ensures StableBefore(keys, i, j) <==> Rank(keys, block, i) < Rank(keys, block, j)
    {
      RankFollowsOrder(keys, block, i, j);
    }
  }

  // ---------------------------------------------------------------- arrival order

  /** The sort keys that occur in a block. */
  ghost function SortKeySet(rows: seq<Incoming>, height: Option<int>): set<SortKey> {
    set i | i in Block(rows, height) :: KeyOf(rows[i])
  }

  ghost predicate DistinctSortKeys(rows: seq<Incoming>, height: Option<int>) {
    forall i, j | i in Block(rows, height) && j in Block(rows, height) && i != j :: KeyOf(rows[i]) != KeyOf(rows[j])
  }

  ghost function Smaller(keys: set<SortKey>, key: SortKey): set<SortKey> {
    set k | k in keys && Before(k, key)
  }

  /** With distinct keys a rank counts smaller keys, whatever order the rows arrived in. */
  lemma RankCountsSmallerKeys(rows: seq<Incoming>, height: Option<int>, i: nat)
    requires DistinctSortKeys(rows, height) && i in Block(rows, height)
    ensures Rank(Keys(rows), Block(rows, height), i) == |Smaller(SortKeySet(rows, height), KeyOf(rows[i]))|
  {
    var p := Predecessors(Keys(rows), Block(rows, height), i);
    BeforeIsStrictTotal(KeyOf(rows[i]), KeyOf(rows[i]));
    ImageSize(rows, height, p);
    assert (set j | j in p :: KeyOf(rows[j])) == Smaller(SortKeySet(rows, height), KeyOf(rows[i]));
  }

  lemma {:induction false} ImageSize(rows: seq<Incoming>, height: Option<int>, part: set<nat>)
    requires DistinctSortKeys(rows, height) && part <= Block(rows, height)
    ensures |set j | j in part :: KeyOf(rows[j])| == |part|
  {
    if part != {} {
      var i :| i in part;
      ImageSize(rows, height, part - {i});
      assert (set j | j in part :: KeyOf(rows[j])) == (set j | j in part - {i} :: KeyOf(rows[j])) + {KeyOf(rows[i])};
    }
  }

  /** Two arrivals of the same keys give every key the same block event index. */
  lemma BlockIndexIgnoresArrival(xs: seq<Incoming>, ys: seq<Incoming>, height: Option<int>, i: nat, j: nat)
    requires SortKeySet(xs, height) == SortKeySet(ys, height)
    requires DistinctSortKeys(xs, height) && DistinctSortKeys(ys, height)
    requires i in Block(xs, height) && j in Block(ys, height) && KeyOf(xs[i]) == KeyOf(ys[j])
    ensures Rank(Keys(xs), Block(xs, height), i) == Rank(Keys(ys), Block(ys, height), j)
  {
    RankCountsSmallerKeys(xs, height, i);
    RankCountsSmallerKeys(ys, height, j);
  }

  // ---------------------------------------------------------------- the in-place pass

  ghost predicate SortedPositions(keys: seq<SortKey>, ps: seq<nat>) {
    && (forall i | 0 <= i < |ps| :: ps[i] < |keys|)
    && (forall i, j | 0 <= i < j < |ps| :: StableBefore(keys, ps[i], ps[j]))
  }

  function Elements(ps: seq<nat>): set<nat> {
    set p | p in ps
  }

  lemma {:induction false} DistinctSize(ps: seq<nat>)
    requires forall i, j | 0 <= i < j < |ps| :: ps[i] != ps[j]
    ensures |Elements(ps)| == |ps|
  {
    if |ps| > 0 {
      var front, last := ps[..|ps| - 1], ps[|ps| - 1];
      DistinctSize(front);
      assert ps == front + [last];
      assert Elements(ps) == Elements(front) + {last};
    }
  }

  /** The first k of a sorted listing of the block are the predecessors of the k-th. */
  lemma SortedPositionIsRank(keys: seq<SortKey>, block: set<nat>, ps: seq<nat>, k: nat)
    requires forall p | p in block :: p < |keys|
    requires SortedPositions(keys, ps) && Elements(ps) == block && k < |ps|
    ensures ps[k] in block && Rank(keys, block, ps[k]) == k
  {
    assert ps[k] in Elements(ps);
    forall i, j | 0 <= i < j < |ps| ensures ps[i] != ps[j] {
      StableBeforeIsStrictTotal(keys, ps[i], ps[i]);
    }
    forall p ensures p in Predecessors(keys, block, ps[k]) <==> p in Elements(ps[..k]) {
      if p in Predecessors(keys, block, ps[k]) {
        var i :| 0 <= i < |ps| && ps[i] == p;
        StableBeforeIsStrictTotal(keys, ps[i], ps[k]);
        assert p == ps[..k][i];
      }
    }
    DistinctSize(ps[..k]);
    assert Predecessors(keys, block, ps[k]) == Elements(ps[..k]);
  }

  /** blockRows.sort: the positions of one block in stable sorted order. */
  method SortBlock(keys: seq<SortKey>, ps: seq<nat>) returns (sorted: seq<nat>)
    requires forall i | 0 <= i < |ps| :: ps[i] < |keys|
    requires forall i, j | 0 <= i < j < |ps| :: ps[i] < ps[j]
    ensures SortedPositions(keys, sorted)
    ensures multiset(sorted) == multiset(ps)
  {
    sorted := [];
    for n := 0 to |ps|
      invariant SortedPositions(keys, sorted)
      invariant multiset(sorted) == multiset(ps[..n])
      invariant n < |ps| ==> forall i | 0 <= i < |sorted| :: sorted[i] < ps[n]
    {
      var at := FindSlot(keys, sorted, ps[n]);
      InsertKeepsSorted(keys, sorted, at, ps[n]);
      sorted := InsertAt(sorted, at, ps[n]);
      assert ps[..n + 1] == ps[..n] + [ps[n]];
    }
    assert ps[..|ps|] == ps;
  }

  /** Where a later arrival goes in a sorted list: behind everything it does not precede. */
  method FindSlot(keys: seq<SortKey>, sorted: seq<nat>, p: nat) returns (at: nat)
    requires SortedPositions(keys, sorted) && p < |keys|
    requires forall i | 0 <= i < |sorted| :: sorted[i] < p
    ensures at <= |sorted|
    ensures forall i | 0 <= i < at :: StableBefore(keys, sorted[i], p)
    ensures forall i | at <= i < |sorted| :: StableBefore(keys, p, sorted[i])
  {
    at := |sorted|;
    while at > 0 && StableBefore(keys, p, sorted[at - 1])
      invariant at <= |sorted|
      invariant forall i | at <= i < |sorted| :: StableBefore(keys, p, sorted[i])
    {
      at := at - 1;
    }
    forall i | 0 <= i < at ensures StableBefore(keys, sorted[i], p) {
      StableBeforeIsStrictTotal(keys, sorted[at - 1], p);
      if i < at - 1 { StableBeforeIsTransitive(keys, sorted[i], sorted[at - 1], p); }
    }
  }

  lemma InsertKeepsSorted(keys: seq<SortKey>, sorted: seq<nat>, at: nat, p: nat)
    requires SortedPositions(keys, sorted) && p < |keys| && at <= |sorted|
    requires forall i | 0 <= i < at :: StableBefore(keys, sorted[i], p)
    requires forall i | at <= i < |sorted| :: StableBefore(keys, p, sorted[i])
    ensures SortedPositions(keys, InsertAt(sorted, at, p))
  {
    var r := InsertAt(sorted, at, p);
    forall i, j | 0 <= i < j < |r| ensures StableBefore(keys, r[i], r[j]) {
      var i' := if i < at then i else i - 1;
      var j' := if j < at then j else j - 1;
      if i != at && j != at {
        assert r[i] == sorted[i'] && r[j] == sorted[j'];
      } else if i == at {
        assert r[j] == sorted[j'];
      } else {
        assert r[i] == sorted[i'];
      }
    }
  }

  function InsertAt(s: seq<nat>, at: nat, p: nat): (r: seq<nat>)
    requires at <= |s|
    ensures multiset(r) == multiset(s) + multiset{p}
    ensures |r| == |s| + 1 && r[at] == p
    ensures forall i | 0 <= i < at :: r[i] == s[i]
    ensures forall i | at < i < |r| :: r[i] == s[i - 1]
  {
    assert s == s[..at] + s[at..];
    s[..at] + [p] + s[at..]
  }

  /** rowsByHeight.get(height), as positions in arrival order. */
  function Positions(rows: seq<Incoming>, height: Option<int>): (ps: seq<nat>)
    ensures Elements(ps) == Block(rows, height)
    ensures forall i, j | 0 <= i < j < |ps| :: ps[i] < ps[j] < |rows|
    ensures forall i | 0 <= i < |ps| :: ps[i] < |rows|
  {
    if |rows| == 0 then []
    else
      var n := |rows| - 1;
      var front := Positions(rows[..n], height);
      if rows[n].columns.blockHeight == height then
        assert Elements(front + [n]) == Elements(front) + {n};
        assert Block(rows, height) == Block(rows[..n], height) + {n};
        front + [n]
      else
        assert Block(rows, height) == Block(rows[..n], height);
        front
  }

  function CountSequenced(rows: seq<Incoming>, ps: seq<nat>): (n: nat)
    requires forall i | 0 <= i < |ps| :: ps[i] < |rows|
    ensures n <= |ps|
    ensures n == 0 <==> forall p | p in ps :: SequenceNumber(rows[p]).None?
    ensures n == |ps| <==> forall p | p in ps :: SequenceNumber(rows[p]).Some?
  {
    if |ps| == 0 then 0
    else
      assert ps == [ps[0]] + ps[1..];
      (if SequenceNumber(rows[ps[0]]).Some? then 1 else 0) + CountSequenced(rows, ps[1..])
  }

  /** The rows grouped by block height, each group in arrival order. */
  method GroupByHeight(rows: array<Incoming>) returns (rowsByHeight: map<Option<int>, seq<nat>>)
    ensures forall h | h in rowsByHeight :: rowsByHeight[h] == Positions(rows[..], h) != []
    ensures forall i | 0 <= i < rows.Length :: rows[i].columns.blockHeight in rowsByHeight
  {
    rowsByHeight := map[];
    for n := 0 to rows.Length
      invariant forall h :: h in rowsByHeight <==> Positions(rows[..n], h) != []
      invariant forall h | h in rowsByHeight :: rowsByHeight[h] == Positions(rows[..n], h)
    {
      var h := rows[n].columns.blockHeight;
      var blockRows := if h in rowsByHeight then rowsByHeight[h] else [];
      assert rows[..n + 1][..n] == rows[..n];
      rowsByHeight := rowsByHeight[h := blockRows + [n]];
    }
    assert rows[..rows.Length] == rows[..];
    forall i | 0 <= i < rows.Length ensures rows[i].columns.blockHeight in rowsByHeight {
      assert i in Block(rows[..], rows[i].columns.blockHeight);
      assert i in Elements(Positions(rows[..], rows[i].columns.blockHeight));
    }
  }

  /** What the counts of one block say about its rows. */
  lemma BlockCases(rows: seq<Incoming>, height: Option<int>)
    requires Block(rows, height) != {}
    ensures
      var ps := Positions(rows, height);
      var n := CountSequenced(rows, ps);
      && (Inconsistent(rows, height) <==> 0 < n < |ps|)
      && (FullySequenced(rows, height) <==> n == |ps|)
      && n <= |ps| && |ps| > 0
  {
    var ps := Positions(rows, height);
    assert Elements(ps) == Block(rows, height);
    assert forall p :: p in ps <==> p in Block(rows, height);
    assert ps == [] ==> Elements(ps) == {};
  }

  /** The rows of blocks with partial sequence metadata. */
  function MixedRows(rows: seq<Incoming>): set<nat> {
    set i: nat | i < |rows| && Inconsistent(rows, rows[i].columns.blockHeight)
  }

  // ---------------------------------------------------------------- what the order is

  /** transactionInfo.sequenceNumber of the payload is a safe integer. */
  predicate CarriesSequence(row: Incoming) {
    var n := Field(Field(row.columns.rawEventData, Name("transactionInfo")), Name("sequenceNumber"));
    n.Int? && -MAX_SAFE_INTEGER <= n.n <= MAX_SAFE_INTEGER
  }

  /**
   Row a belongs before row b of its block: by transaction sequence number, then account
   update index, then event index, then hash, then arrival.
   */
  predicate BelongsBefore(a: Incoming, b: Incoming, arrivedFirst: bool)
    requires CarriesSequence(a) && CarriesSequence(b)
  {
    var m := Field(Field(a.columns.rawEventData, Name("transactionInfo")), Name("sequenceNumber")).n;
    var n := Field(Field(b.columns.rawEventData, Name("transactionInfo")), Name("sequenceNumber")).n;
    var x, y := a.identity, b.identity;
    || m < n
    || (m == n && x.accountUpdateIndex < y.accountUpdateIndex)
    || (m == n && x.accountUpdateIndex == y.accountUpdateIndex && x.eventIndex < y.eventIndex)
    || (m == n && x.accountUpdateIndex == y.accountUpdateIndex && x.eventIndex == y.eventIndex && Less(x.txHash, y.txHash))
    || (m == n && x == y && arrivedFirst)
  }

  /** Every row of the block carries a sequence number. */
  predicate AllCarrySequence(rows: seq<Incoming>, height: Option<int>) {
    forall k | 0 <= k < |rows| && rows[k].columns.blockHeight == height :: CarriesSequence(rows[k])
  }

  lemma SequenceIsCarried(row: Incoming)
    ensures SequenceNumber(row).Some? <==> CarriesSequence(row)
    ensures CarriesSequence(row) ==>
      SequenceNumber(row).value == Field(Field(row.columns.rawEventData, Name("transactionInfo")), Name("sequenceNumber")).n
  {
  }

  lemma FullySequencedCarries(rows: seq<Incoming>, height: Option<int>)
    ensures FullySequenced(rows, height) <==> AllCarrySequence(rows, height)
  {
    forall k | 0 <= k < |rows| ensures SequenceNumber(rows[k]).Some? <==> CarriesSequence(rows[k]) {
      SequenceIsCarried(rows[k]);
    }
    if FullySequenced(rows, height) {
      forall k | 0 <= k < |rows| && rows[k].columns.blockHeight == height ensures CarriesSequence(rows[k]) {
        assert k in Block(rows, height);
      }
    }
  }

  lemma StableBeforeIsBelongsBefore(rows: seq<Incoming>, i: nat, j: nat)
    requires i < |rows| && j < |rows| && CarriesSequence(rows[i]) && CarriesSequence(rows[j])
    ensures StableBefore(Keys(rows), i, j) <==> BelongsBefore(rows[i], rows[j], i < j)
  {
    SequenceIsCarried(rows[i]);
    SequenceIsCarried(rows[j]);
    LessIsStrictTotal(rows[i].identity.txHash, rows[j].identity.txHash);
  }

  /** A fully sequenced block is numbered from zero in its order, and nothing else about its rows changes. */
  lemma BlockIsNumberedInOrder(rows: seq<Incoming>, i: nat, j: nat)
    requires i < |rows| && j < |rows| && rows[i].columns.blockHeight == rows[j].columns.blockHeight
    requires AllCarrySequence(rows, rows[i].columns.blockHeight)
    ensures
      var r, block := Assigned(rows), Block(rows, rows[i].columns.blockHeight);
      && 0 <= r[i].columns.blockEventIndex < |block|
      && r[i] == rows[i].(columns := rows[i].columns.(blockEventIndex := r[i].columns.blockEventIndex))
      && (r[i].columns.blockEventIndex < r[j].columns.blockEventIndex <==> BelongsBefore(rows[i], rows[j], i < j))
      && (r[i].columns.blockEventIndex == r[j].columns.blockEventIndex <==> i == j)
  {
    var height := rows[i].columns.blockHeight;
    var block := Block(rows, height);
    FullySequencedCarries(rows, height);
    assert i in block && j in block;
    RankIsBounded(Keys(rows), block, i);
    RankFollowsOrder(Keys(rows), block, i, j);
    StableBeforeIsBelongsBefore(rows, i, j);
  }

  /** Other blocks keep the order of arrival; those with some sequence numbers are reported. */
  lemma OtherBlocksStay(rows: seq<Incoming>, i: nat)
    requires i < |rows| && !AllCarrySequence(rows, rows[i].columns.blockHeight)
    ensures Assigned(rows)[i] == rows[i]
    ensures i in MixedRows(rows) <==>
      exists k :: 0 <= k < |rows| && rows[k].columns.blockHeight == rows[i].columns.blockHeight && CarriesSequence(rows[k])
  {
    var height := rows[i].columns.blockHeight;
    FullySequencedCarries(rows, height);
    forall k | 0 <= k < |rows| ensures SequenceNumber(rows[k]).Some? <==> CarriesSequence(rows[k]) {
      SequenceIsCarried(rows[k]);
    }
    forall k: nat ensures k in Block(rows, height) <==> k < |rows| && rows[k].columns.blockHeight == height {
    }
  }

  /** Two rows of one block all of whose rows carry a sequence number. */
  predicate OfSequencedBlock(rows: seq<Incoming>, i: nat, j: nat)
    requires i < |rows| && j < |rows|
  {
    && rows[i].columns.blockHeight == rows[j].columns.blockHeight && CarriesSequence(rows[i]) && CarriesSequence(rows[j])
    && AllCarrySequence(rows, rows[i].columns.blockHeight)
  }

  /** assignBlockEventIndexes: numbers every fully sequenced block, returns the rows of mixed blocks. */
  method AssignBlockEventIndexes(rows: array<Incoming>) returns (inconsistent: set<nat>)
    modifies rows
    ensures rows[..] == Assigned(old(rows[..]))
    ensures inconsistent == MixedRows(old(rows[..]))
    ensures forall i, j | 0 <= i < rows.Length && 0 <= j < rows.Length && OfSequencedBlock(old(rows[..]), i, j) ::
      rows[i].columns.blockEventIndex < rows[j].columns.blockEventIndex <==>
      BelongsBefore(old(rows[..])[i], old(rows[..])[j], i < j)
  {
    var before := rows[..];
    var rowsByHeight := GroupByHeight(rows);
    var mixedHeights: set<Option<int>> := {};
    var heights := rowsByHeight.Keys;
    while heights != {}
      invariant heights <= rowsByHeight.Keys
      invariant forall i | 0 <= i < rows.Length && before[i].columns.blockHeight in heights :: rows[i] == before[i]
      invariant forall i | 0 <= i < rows.Length && before[i].columns.blockHeight !in heights ::
        rows[i] == AssignedRow(before, i)
      invariant forall h | h in rowsByHeight :: h in mixedHeights <==> h !in heights && Inconsistent(before, h)
      decreases heights
    {
      var h :| h in heights;
      heights := heights - {h};
      var mixed := NumberIfSequenced(rows, before, h, rowsByHeight[h]);
      if mixed {
        mixedHeights := mixedHeights + {h};
      }
    }
    inconsistent := set i: nat | i < |before| && before[i].columns.blockHeight in mixedHeights;
    forall i, j | 0 <= i < rows.Length && 0 <= j < rows.Length && OfSequencedBlock(before, i, j)
      ensures rows[i].columns.blockEventIndex < rows[j].columns.blockEventIndex <==>
        BelongsBefore(before[i], before[j], i < j)
    {
      BlockIsNumberedInOrder(before, i, j);
    }
  }

  /** The treatment of one block: renumbered, left in arrival order, or reported as mixed. */
  method NumberIfSequenced(rows: array<Incoming>, before: seq<Incoming>, h: Option<int>, blockRows: seq<nat>)
    returns (mixed: bool)
    requires |before| == rows.Length && blockRows == Positions(before, h) != []
    requires forall i | 0 <= i < rows.Length && before[i].columns.blockHeight == h :: rows[i] == before[i]
    modifies rows
    ensures mixed <==> Inconsistent(before, h)
    ensures forall i | 0 <= i < rows.Length && before[i].columns.blockHeight == h :: rows[i] == AssignedRow(before, i)
    ensures forall i | 0 <= i < rows.Length && before[i].columns.blockHeight != h :: rows[i] == old(rows[i])
  {
    assert blockRows[0] in Elements(blockRows);
    var sequencedRowCount := CountSequenced(before, blockRows);
    BlockCases(before, h);
    assert Elements(blockRows) == Block(before, h);
    mixed := 0 < sequencedRowCount < |blockRows|;
    if !mixed && sequencedRowCount > 0 {
      NumberBlock(rows, Keys(before), blockRows);
    }
  }

  /** Sorts one block and overwrites the block event index of its rows. */
  method NumberBlock(rows: array<Incoming>, keys: seq<SortKey>, blockRows: seq<nat>)
    requires |keys| == rows.Length
    requires forall i | 0 <= i < |blockRows| :: blockRows[i] < rows.Length
    requires forall i, j | 0 <= i < j < |blockRows| :: blockRows[i] < blockRows[j]
    modifies rows
    ensures forall i | i in Elements(blockRows) :: rows[i] == Numbered(old(rows[i]), Rank(keys, Elements(blockRows), i))
    ensures forall i | 0 <= i < rows.Length && i !in Elements(blockRows) :: rows[i] == old(rows[i])
  {
    var sorted := SortBlock(keys, blockRows);
    assert forall p :: p in sorted <==> p in multiset(sorted);
    assert forall p :: p in blockRows <==> p in multiset(blockRows);
    assert Elements(sorted) == Elements(blockRows);
    SortedIsDistinct(keys, sorted);
    Renumber(rows, sorted);
    forall i | i in Elements(blockRows)
      ensures rows[i] == Numbered(old(rows[i]), Rank(keys, Elements(blockRows), i))
    {
      var j :| 0 <= j < |sorted| && sorted[j] == i;
      SortedPositionIsRank(keys, Elements(blockRows), sorted, j);
    }
  }

  /** blockRows.forEach: the k-th position of the list gets index k. */
  method Renumber(rows: array<Incoming>, ps: seq<nat>)
    requires forall i | 0 <= i < |ps| :: ps[i] < rows.Length
    requires forall i, j | 0 <= i < j < |ps| :: ps[i] != ps[j]
    modifies rows
    ensures forall j | 0 <= j < |ps| :: rows[ps[j]] == Numbered(old(rows[ps[j]]), j)
    ensures forall i | 0 <= i < rows.Length && i !in ps :: rows[i] == old(rows[i])
  {
    for k := 0 to |ps|
      invariant forall j | 0 <= j < k :: rows[ps[j]] == Numbered(old(rows[ps[j]]), j)
      invariant forall i | 0 <= i < rows.Length && i !in ps[..k] :: rows[i] == old(rows[i])
    {
      assert ps[k] !in ps[..k];
      rows[ps[k]] := Numbered(rows[ps[k]], k);
      assert ps[..k + 1] == ps[..k] + [ps[k]];
    }
    assert ps[..|ps|] == ps;
  }

  lemma SortedIsDistinct(keys: seq<SortKey>, ps: seq<nat>)
    requires SortedPositions(keys, ps)
    ensures forall i, j | 0 <= i < j < |ps| :: ps[i] != ps[j]
  {
    forall i, j | 0 <= i < j < |ps| ensures ps[i] != ps[j] {
      StableBeforeIsStrictTotal(keys, ps[i], ps[i]);
    }
  }
}
