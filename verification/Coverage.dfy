/** The canonical range loop of several indexers: no height up to the cursor is skipped. */
module Coverage {
  import opened Wrappers

  /** Heights are block heights; batchSize and overlap may differ from pass to pass. */
  datatype Options = Options(batchSize: nat, overlapBlocks: nat)

  datatype Pass =
    | Resting
    | KnowsHead(options: Options, archiveHead: int)
    | Running(options: Options, from: int, archiveHead: int)

  /** committed: the heights of the ranges whose transactions committed. */
  datatype State = State(cursor: Option<int>, committed: set<int>, passes: map<nat, Pass>)

  function PassAt(s: State, i: nat): Pass {
    if i in s.passes then s.passes[i] else Resting
  }

  function Heights(low: int, high: int): (r: set<int>)
    ensures forall h :: h in r <==> low <= h <= high
    decreases high - low + 1
  {
    if low > high then {} else Heights(low, high - 1) + {high}
  }

  /** Where a pass begins, given the stored cursor. */
  function FirstHeight(cursor: Option<int>, startHeight: nat, overlapBlocks: nat): int {
    match cursor
    case None => startHeight
    case Some(c) => if overlapBlocks > 0 then (if c - overlapBlocks + 1 > 0 then c - overlapBlocks + 1 else 0) else c + 1
  }

  function BatchEnd(from: int, batchSize: nat, archiveHead: int): int {
    if from + batchSize - 1 < archiveHead then from + batchSize - 1 else archiveHead
  }

  /** The cursor column after a committed range. */
  function Greatest(cursor: Option<int>, to: int): Option<int> {
    if cursor.Some? && cursor.value > to then cursor else Some(to)
  }

  datatype Step =
    | ReadHead(i: nat, options: Options, archiveHead: nat)
    | ReadCursor(i: nat)
    | CommitBatch(i: nat, replyLost: bool)
    | Stop(i: nat)

  predicate Enabled(s: State, step: Step) {
    match step
    case ReadHead(i, options, _) => PassAt(s, i).Resting? && options.batchSize >= 1
    case ReadCursor(i) => PassAt(s, i).KnowsHead?
    case CommitBatch(i, _) => PassAt(s, i).Running? && PassAt(s, i).from <= PassAt(s, i).archiveHead
    case Stop(_) => true
  }

  function Moved(s: State, i: nat, pass: Pass): State {
    s.(passes := s.passes[i := pass])
  }

  /** One step; Stop is a failure between transactions, a rollback, or the end of a pass. */
  function Do(startHeight: nat, s: State, step: Step): State
    requires Enabled(s, step)
  {
    match step
    case ReadHead(i, options, archiveHead) => Moved(s, i, KnowsHead(options, archiveHead))
    case ReadCursor(i) =>
      var pass := PassAt(s, i);
      Moved(s, i, Running(pass.options, FirstHeight(s.cursor, startHeight, pass.options.overlapBlocks), pass.archiveHead))
    case CommitBatch(i, replyLost) =>
      var pass := PassAt(s, i);
      var to := BatchEnd(pass.from, pass.options.batchSize, pass.archiveHead);
      Moved(
        s.(cursor := Greatest(s.cursor, to), committed := s.committed + Heights(pass.from, to)), i,
        if replyLost then Resting else pass.(from := to + 1))
    case Stop(i) => Moved(s, i, Resting)
  }

  /** Every height from low up to high sits in a committed range. */
  ghost predicate Covers(committed: set<int>, low: int, high: int) {
    forall h: int | low <= h <= high :: h in committed
  }

  ghost predicate PassFits(startHeight: nat, committed: set<int>, pass: Pass) {
    match pass
    case Resting => true
    case KnowsHead(options, _) => options.batchSize >= 1
    case Running(options, from, _) => options.batchSize >= 1 && from >= 0 && Covers(committed, startHeight, from - 1)
  }

  ghost predicate Inv(startHeight: nat, s: State) {
    && (s.cursor.Some? ==> s.cursor.value >= 0 && Covers(s.committed, startHeight, s.cursor.value))
    && forall i | i in s.passes :: PassFits(startHeight, s.committed, s.passes[i])
  }

  lemma StepKeepsInv(startHeight: nat, s: State, step: Step)
    requires Inv(startHeight, s) && Enabled(s, step)
    ensures Inv(startHeight, Do(startHeight, s, step))
    ensures s.cursor.Some? ==> Do(startHeight, s, step).cursor.Some? && s.cursor.value <= Do(startHeight, s, step).cursor.value
    ensures s.committed <= Do(startHeight, s, step).committed
  {
    var s' := Do(startHeight, s, step);
    assert PassFits(startHeight, s.committed, PassAt(s, step.i));
    match step
    case CommitBatch(i, replyLost) =>
      var pass := PassAt(s, i);
      var to := BatchEnd(pass.from, pass.options.batchSize, pass.archiveHead);
      forall h: int | startHeight <= h <= to ensures h in s'.committed {
        assert h < pass.from || h in Heights(pass.from, to);
      }
      forall k | k in s'.passes ensures PassFits(startHeight, s'.committed, s'.passes[k]) {
        assert k in s.passes ==> PassFits(startHeight, s.committed, s.passes[k]);
      }
    case ReadCursor(i) =>
      var pass := PassAt(s, i);
      assert Covers(s.committed, startHeight, FirstHeight(s.cursor, startHeight, pass.options.overlapBlocks) - 1);
    case _ =>
  }

  /** The stored cursor starts absent. */
  predicate Init(s: State) {
    s.cursor.None? && s.passes == map[]
  }

  ghost predicate IsRun(startHeight: nat, states: seq<State>, steps: seq<Step>) {
    && |states| == |steps| + 1 && Init(states[0])
    && forall k | 0 <= k < |steps| :: Follows(startHeight, states, steps, k)
  }

  ghost predicate Follows(startHeight: nat, states: seq<State>, steps: seq<Step>, k: nat)
    requires k < |steps| && |states| == |steps| + 1
  {
    Enabled(states[k], steps[k]) && states[k + 1] == Do(startHeight, states[k], steps[k])
  }

  lemma {:induction false} RunKeepsInv(startHeight: nat, states: seq<State>, steps: seq<Step>, k: nat)
    requires IsRun(startHeight, states, steps) && k < |states|
    ensures Inv(startHeight, states[k])
  {
    if k > 0 {
      RunKeepsInv(startHeight, states, steps, k - 1);
      assert Follows(startHeight, states, steps, k - 1);
      StepKeepsInv(startHeight, states[k - 1], steps[k - 1]);
    }
  }

  /**
   Gap-free canonical coverage: at every moment of every run every height from the
   cold-start height to the stored cursor was in a committed range.
   */
  lemma CursorLeavesNoGap(startHeight: nat, states: seq<State>, steps: seq<Step>, k: nat, height: int)
    requires IsRun(startHeight, states, steps) && k < |states|
    requires states[k].cursor.Some? && startHeight <= height <= states[k].cursor.value
    ensures height in states[k].committed
  {
    RunKeepsInv(startHeight, states, steps, k);
    assert Covers(states[k].committed, startHeight, states[k].cursor.value);
  }

  /** Over every run the cursor never decreases and no committed height is forgotten. */
  lemma {:induction false} CursorOnlyGrows(startHeight: nat, states: seq<State>, steps: seq<Step>, k: nat, m: nat)
    requires IsRun(startHeight, states, steps) && k <= m < |states|
    ensures states[k].cursor.Some? ==> states[m].cursor.Some? && states[k].cursor.value <= states[m].cursor.value
    ensures states[k].committed <= states[m].committed
  {
    if k < m {
      CursorOnlyGrows(startHeight, states, steps, k, m - 1);
      RunKeepsInv(startHeight, states, steps, m - 1);
      assert Follows(startHeight, states, steps, m - 1);
      StepKeepsInv(startHeight, states[m - 1], steps[m - 1]);
    }
  }

  // ---------------------------------------------------------------- one pass

  /** A height the pass has to read: from the start on, or from the overlap below the cursor on. */
  predicate Wanted(cursor: Option<int>, startHeight: nat, overlapBlocks: nat, height: int) {
    match cursor
    case None => startHeight <= height
    case Some(c) => 0 <= height && c < height + overlapBlocks
  }

  lemma WantedFromFirst(cursor: Option<int>, startHeight: nat, overlapBlocks: nat)
    requires cursor.Some? ==> cursor.value >= 0
    ensures forall h: int :: Wanted(cursor, startHeight, overlapBlocks, h) <==> FirstHeight(cursor, startHeight, overlapBlocks) <= h
  {
  }

  /** The last height of a pass that ended, at the head or before a batch that threw. */
  function EndOfPass(stoppedAt: Option<int>, archiveHead: nat): int {
    match stoppedAt
    case None => archiveHead
    case Some(at) => at - 1
  }

  datatype HeightRange = HeightRange(from: int, to: int)

  /** Ranges one after another, each of the batch size unless it ends at the head. */
  ghost predicate Tiles(ranges: seq<HeightRange>, batchSize: nat, archiveHead: nat) {
    forall i | 0 <= i < |ranges| :: IsTile(ranges, batchSize, archiveHead, i)
  }

  predicate IsTile(ranges: seq<HeightRange>, batchSize: nat, archiveHead: nat, i: nat)
    requires i < |ranges|
  {
    && ranges[i].from <= ranges[i].to <= archiveHead
    && (ranges[i].to - ranges[i].from + 1 == batchSize || (ranges[i].to == archiveHead && ranges[i].to - ranges[i].from < batchSize))
    && (i > 0 ==> ranges[i].from == ranges[i - 1].to + 1)
  }

  /** They lead from low to high. */
  predicate Spans(ranges: seq<HeightRange>, low: int, high: int) {
    if |ranges| == 0 then high < low else ranges[0].from == low && ranges[|ranges| - 1].to == high
  }

  lemma TileOneMore(ranges: seq<HeightRange>, low: int, next: HeightRange, batchSize: nat, archiveHead: nat)
    requires Tiles(ranges, batchSize, archiveHead) && Spans(ranges, low, next.from - 1) && low <= next.from <= archiveHead
    requires ranges == [] ==> next.from == low
    requires next.to == BatchEnd(next.from, batchSize, archiveHead) && batchSize >= 1
    ensures Tiles(ranges + [next], batchSize, archiveHead) && Spans(ranges + [next], low, next.to)
  {
    var more := ranges + [next];
    forall i | 0 <= i < |more| ensures IsTile(more, batchSize, archiveHead, i) {
      if i < |ranges| { assert IsTile(ranges, batchSize, archiveHead, i); }
    }
  }

  class Indexer {
    const startHeight: nat
    const options: Options
    var cursor: Option<int>
    ghost var committed: set<int>

    constructor (startHeight: nat, options: Options)
      requires options.batchSize >= 1
      ensures this.startHeight == startHeight && this.options == options && Valid() && cursor.None? && committed == {}
    {
      this.startHeight, this.options, cursor, committed := startHeight, options, None, {};
    }

    ghost predicate Valid()
      reads this
    {
      && options.batchSize >= 1
      && (cursor.Some? ==> cursor.value >= 0 && Covers(committed, startHeight, cursor.value))
    }

    /** The loop over ranges, from the first height to the head or to a batch that throws. */
    method SyncRanges(first: int, archiveHead: nat, fails: int -> bool)
      returns (stoppedAt: Option<int>, ghost ranges: seq<HeightRange>)
      requires Valid() && 0 <= first <= archiveHead && Covers(committed, startHeight, first - 1)
      modifies this
      ensures Valid() && stoppedAt.Some? ==> fails(stoppedAt.value) && first <= stoppedAt.value <= archiveHead
      ensures Valid() && committed == old(committed) + Heights(first, EndOfPass(stoppedAt, archiveHead))
      ensures cursor == if ranges == [] then old(cursor) else Greatest(old(cursor), EndOfPass(stoppedAt, archiveHead))
      ensures Tiles(ranges, options.batchSize, archiveHead) && Spans(ranges, first, EndOfPass(stoppedAt, archiveHead))
    {
      var from := first;
      ranges := [];
      while from <= archiveHead
        invariant first <= from <= archiveHead + 1
        invariant Valid() && Covers(committed, startHeight, from - 1) && from >= 0
        invariant committed == old(committed) + Heights(first, from - 1)
        invariant cursor == if ranges == [] then old(cursor) else Greatest(old(cursor), from - 1)
        invariant Tiles(ranges, options.batchSize, archiveHead) && Spans(ranges, first, from - 1)
        invariant ranges == [] <==> from == first
        decreases archiveHead + 1 - from
      {
        if fails(from) {
          return Some(from), ranges;
        }
        var to := BatchEnd(from, options.batchSize, archiveHead);
        committed := committed + Heights(from, to);
        assert Heights(first, to) == Heights(first, from - 1) + Heights(from, to);
        forall h: int | startHeight <= h <= to ensures h in committed {
          assert h < from || h in Heights(from, to);
        }
        cursor := Greatest(cursor, to);
        TileOneMore(ranges, first, HeightRange(from, to), options.batchSize, archiveHead);
        ranges := ranges + [HeightRange(from, to)];
        from := to + 1;
      }
      stoppedAt := None;
    }

    /**
     The canonical branch of syncStatusOnce: fails(from) says whether the batch that
     begins there throws. The pass ends, and it stops early only at a failing batch. It
     commits exactly the wanted heights up to its end, in ranges of the batch size.
     */
    method SyncCanonicalOnce(archiveHead: nat, fails: int -> bool)
      returns (stoppedAt: Option<int>, ghost ranges: seq<HeightRange>)
      requires Valid()
      modifies this
      ensures Valid() && (stoppedAt.Some? ==> fails(stoppedAt.value) && stoppedAt.value <= archiveHead)
      ensures forall h: int :: h in committed <==>
        h in old(committed) || (Wanted(old(cursor), startHeight, options.overlapBlocks, h) && h <= EndOfPass(stoppedAt, archiveHead))
      ensures stoppedAt.Some? ==> Wanted(old(cursor), startHeight, options.overlapBlocks, stoppedAt.value)
      ensures
        if ranges == [] then cursor == old(cursor)
        else if old(cursor).Some? && old(cursor).value >= EndOfPass(stoppedAt, archiveHead) then cursor == old(cursor)
        else cursor == Some(EndOfPass(stoppedAt, archiveHead))
      ensures stoppedAt.None? && (old(cursor).Some? || startHeight <= archiveHead) ==> cursor.Some? && cursor.value >= archiveHead
      ensures Tiles(ranges, options.batchSize, archiveHead)
      ensures ranges != [] ==>
        && Wanted(old(cursor), startHeight, options.overlapBlocks, ranges[0].from)
        && !Wanted(old(cursor), startHeight, options.overlapBlocks, ranges[0].from - 1)
        && ranges[|ranges| - 1].to == EndOfPass(stoppedAt, archiveHead)
    {
      var from := FirstHeight(cursor, startHeight, options.overlapBlocks);
      WantedFromFirst(cursor, startHeight, options.overlapBlocks);
      if from > archiveHead {
        return None, [];
      }
      stoppedAt, ranges := SyncRanges(from, archiveHead, fails);
    }
  }
}
