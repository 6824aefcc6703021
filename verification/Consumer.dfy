/** The consumer: writers under their lock interleaved with workers of one processor name. */
module Consumer {
  import opened Wrappers
  import opened Texts
  import opened Rows
  import opened Transactions
  import opened Lifecycle
  import opened EventStore
  import opened ChangeFeed
  import opened Progress

  /** Where a worker stands in processOnceFromIndexerApi. */
  datatype Worker =
    | Idle
    | Asking(cursor: nat)
    | Holding(rest: seq<Event>)
    | Trying(rest: seq<Event>, failure: Option<FailureRow>, attemptCount: nat, attemptsThisPass: nat)
    | Recording(rest: seq<Event>, refused: bool, attemptCount: nat, attemptsThisPass: nat)

  /** types are the event types with a handler; maxAttempts is the attempt limit of one pass. */
  datatype Settings = Settings(types: set<Text>, maxAttempts: nat)

  /** The ingestion transaction in flight, if one holds the lock, has its own view of the table. */
  datatype State = State(committed: Table, inflight: Option<Table>, position: Position, workers: map<nat, Worker>)

  function WorkerAt(s: State, i: nat): Worker {
    if i in s.workers then s.workers[i] else Idle
  }

  datatype Step =
    | BeginWrite(t: Table)
    | CommitWrite
    | RollBackWrite
    | AskForPage(i: nat)
    | ReceivePage(i: nat, page: seq<Event>, limit: nat)
    | TakeEvent(i: nat)
    | TryEvent(i: nat, outcome: Outcome, replyLost: bool)
    | RecordFailure(i: nat)
    | GiveUp(i: nat)
    | UnblockFailure(key: VersionKey, state: FailureState)

  /** What the consumer needs to know of a writer: rows are numbered apart, and whatever changes is renumbered. */
  ghost predicate MayCommit(before: Table, after: Table) {
    Stamped(before, after) && WellNumbered(after)
  }

  /** Every transaction of the event store is such a writer, committed or aborted. */
  lemma TransactionsMayCommit(before: Table, after: Table, w: Write)
    requires Commits(before, after, w)
    ensures MayCommit(before, after)
  {
  }

  ghost predicate Enabled(c: Settings, s: State, step: Step) {
    match step
    case BeginWrite(t) => s.inflight.None? && MayCommit(s.committed, t)
    case CommitWrite => s.inflight.Some?
    case RollBackWrite => s.inflight.Some?
    case AskForPage(i) => WorkerAt(s, i).Idle?
    case ReceivePage(i, page, limit) =>
      WorkerAt(s, i).Asking? && PageOf(s.committed.rows, c.types, WorkerAt(s, i).cursor, limit, page)
    case TakeEvent(i) => WorkerAt(s, i).Holding? && WorkerAt(s, i).rest != []
    case TryEvent(i, _, _) => WorkerAt(s, i).Trying? && WorkerAt(s, i).rest != []
    case RecordFailure(i) => WorkerAt(s, i).Recording? && WorkerAt(s, i).rest != []
    case GiveUp(_) => true
    case UnblockFailure(_, state) => state == Retrying || state == Superseded
  }

  function Moved(s: State, i: nat, worker: Worker): State {
    s.(workers := s.workers[i := worker])
  }

  /** The table after a rollback: rows as before, but drawn sequence values stay drawn. */
  function RolledBack(committed: Table, t: Table): Table {
    committed.(sequence := t.sequence, lastId := t.lastId)
  }

  /** TakeEvent: read the failure row; a blocked row ends the pass. */
  function Take(p: Position, rest: seq<Event>): Worker
    requires rest != []
  {
    var failure := FailureOf(p, rest[0]);
    if failure.Some? && failure.value.state == Blocked then Idle
    else Trying(rest, failure, if failure.Some? && failure.value.state == Retrying then failure.value.attemptCount else 0, 0)
  }

  /** TryEvent: the transaction, and where the worker goes on. replyLost: it committed but the worker saw an error. */
  function Try(p: Position, w: Worker, outcome: Outcome, replyLost: bool): (Position, Worker)
    requires w.Trying? && w.rest != []
  {
    var r := Attempt(p, w.rest[0], w.failure, outcome);
    if r.verdict.Failed? then (r.position, Recording(w.rest, r.verdict.refused, w.attemptCount + 1, w.attemptsThisPass + 1))
    else if replyLost then (r.position, Recording(w.rest, false, w.attemptCount + 1, w.attemptsThisPass + 1))
    else (r.position, Holding(w.rest[1..]))
  }

  /** RecordFailure: quarantine goes on with the next event; a thrown error retries until the limit. */
  function AfterFailure(c: Settings, p: Position, w: Worker): (Position, Worker)
    requires w.Recording? && w.rest != []
  {
    var q := Record(p, w.rest[0], w.refused, w.attemptCount);
    if w.refused then (q, Holding(w.rest[1..]))
    else if w.attemptsThisPass >= c.maxAttempts then (q, Idle)
    else (q, Trying(w.rest, FailureOf(q, w.rest[0]), w.attemptCount, w.attemptsThisPass))
  }

  ghost function Do(c: Settings, s: State, step: Step): State
    requires Enabled(c, s, step)
  {
    match step
    case BeginWrite(t) => s.(inflight := Some(t))
    case CommitWrite => s.(committed := s.inflight.value, inflight := None)
    case RollBackWrite => s.(committed := RolledBack(s.committed, s.inflight.value), inflight := None)
    case AskForPage(i) => Moved(s, i, Asking(Offset(s.position)))
    case ReceivePage(i, page, _) => Moved(s, i, Holding(page))
    case TakeEvent(i) => Moved(s, i, Take(s.position, WorkerAt(s, i).rest))
    case TryEvent(i, outcome, replyLost) =>
      var (p, w) := Try(s.position, WorkerAt(s, i), outcome, replyLost);
      Moved(s.(position := p), i, w)
    case RecordFailure(i) =>
      var (p, w) := AfterFailure(c, s.position, WorkerAt(s, i));
      Moved(s.(position := p), i, w)
    case GiveUp(i) => Moved(s, i, Idle)
    case UnblockFailure(key, state) => s.(position := Unblock(s.position, key, state))
  }

  function RestOf(w: Worker): seq<Event> {
    match w
    case Holding(rest) => rest
    case Trying(rest, _, _, _) => rest
    case Recording(rest, _, _, _) => rest
    case Idle => []
    case Asking(_) => []
  }

  // ---------------------------------------------------------------- invariant

  /**
   The rest of a page is still good: every current row of a handled type between the
   offset and an item is that item or an earlier one of the page, in that exact version.
   */
  ghost predicate PageFits(rows: map<Identity, Row>, types: set<Text>, offset: nat, bound: nat, rest: seq<Event>) {
    && Ascending(rest, 0)
    && (forall j | 0 <= j < |rest| :: SequenceOf(rest[j]) <= bound)
    && (forall j, e: Event | 0 <= j < |rest| && Awaits(rows, types, offset, e) && SequenceOf(e) <= SequenceOf(rest[j]) ::
          e in rest[..j + 1])
  }

  /** A current version of a handled type beyond the offset. */
  predicate Awaits(rows: map<Identity, Row>, types: set<Text>, offset: nat, e: Event) {
    IsCurrent(rows, e) && Handles(types, e) && SequenceOf(e) > offset
  }

  ghost predicate WorkerFits(c: Settings, s: State, w: Worker) {
    match w
    case Asking(cursor) => cursor <= Offset(s.position)
    case _ => PageFits(s.committed.rows, c.types, Offset(s.position), s.committed.sequence, RestOf(w))
  }

  /** No lost change: what the offset has passed was dispatched or quarantined in its current version. */
  ghost predicate NothingLost(rows: map<Identity, Row>, types: set<Text>, p: Position) {
    forall e: Event | IsCurrent(rows, e) && Handles(types, e) && SequenceOf(e) <= Offset(p) :: Settled(p, e)
  }

  ghost predicate Inv(c: Settings, s: State) {
    && WellNumbered(s.committed)
    && (s.inflight.Some? ==> MayCommit(s.committed, s.inflight.value))
    && Offset(s.position) <= s.committed.sequence
    && InOrder(s.position)
    && NothingLost(s.committed.rows, c.types, s.position)
    && forall i | i in s.workers :: WorkerFits(c, s, s.workers[i])
  }

  ghost predicate Init(c: Settings, s: State) {
    && WellNumbered(s.committed) && s.inflight.None? && s.workers == map[]
    && s.position.offset.None? && s.position.dispatched == [] && s.position.quarantined == {}
    && forall key | key in s.position.failures :: s.position.failures[key].state != Quarantined
  }

  lemma InitHolds(c: Settings, s: State)
    requires Init(c, s)
    ensures Inv(c, s)
  {
  }

  // ---------------------------------------------------------------- pages and the moving table

  /** An event that a page covers, up to one of its items, is that item or an earlier one. */
  lemma CoveredIsListed(page: seq<Event>, cursor: nat, limit: nat, j: nat, e: Event)
    requires Ascending(page, cursor) && Covered(page, limit, e) && j < |page| && SequenceOf(e) <= SequenceOf(page[j])
    ensures e in page[..j + 1]
  {
    assert j < |page| - 1 ==> SequenceOf(page[j]) < SequenceOf(page[|page| - 1]);
    var m :| 0 <= m < |page| && page[m] == e;
    assert page[..j + 1][m] == e;
  }

  /** A fresh page fits, even if the offset has moved past the cursor it asked with. */
  lemma FreshPageFits(t: Table, types: set<Text>, cursor: nat, limit: nat, page: seq<Event>, offset: nat)
    requires WellNumbered(t) && PageOf(t.rows, types, cursor, limit, page) && cursor <= offset
    ensures PageFits(t.rows, types, offset, t.sequence, page)
  {
    forall j, e: Event | 0 <= j < |page| && Awaits(t.rows, types, offset, e) && SequenceOf(e) <= SequenceOf(page[j])
      ensures e in page[..j + 1]
    {
      assert Covered(page, limit, e);
      CoveredIsListed(page, cursor, limit, j, e);
    }
    forall i | 0 <= i < |page| ensures SequenceOf(page[i]) <= t.sequence {
      assert IsCurrent(t.rows, page[i]);
    }
  }

  lemma PageFitsLater(rows: map<Identity, Row>, types: set<Text>, offset: nat, later: nat, bound: nat, rest: seq<Event>)
    requires PageFits(rows, types, offset, bound, rest) && offset <= later
    ensures PageFits(rows, types, later, bound, rest)
  {
    forall j, e: Event | 0 <= j < |rest| && Awaits(rows, types, later, e) && SequenceOf(e) <= SequenceOf(rest[j])
      ensures e in rest[..j + 1]
    {
      assert Awaits(rows, types, offset, e);
    }
  }

  /** Whatever a transaction rewrites moves behind every page already fetched. */
  lemma RewrittenRowsMoveBehind(before: Table, after: Table, e: Event)
    requires Stamped(before, after) && IsCurrent(after.rows, e) && SequenceOf(e) <= before.sequence
    ensures IsCurrent(before.rows, e)
  {
    assert StampedRow(before, after, e.key);
  }

  lemma PageFitsRewritten(before: Table, after: Table, types: set<Text>, offset: nat, rest: seq<Event>)
    requires PageFits(before.rows, types, offset, before.sequence, rest) && Stamped(before, after)
    ensures PageFits(after.rows, types, offset, after.sequence, rest)
  {
    forall j, e: Event | 0 <= j < |rest| && Awaits(after.rows, types, offset, e) && SequenceOf(e) <= SequenceOf(rest[j])
      ensures e in rest[..j + 1]
    {
      RewrittenRowsMoveBehind(before, after, e);
      assert Awaits(before.rows, types, offset, e);
    }
  }

  /** Once the offset has passed the first item, the remaining items fit. */
  lemma RestFits(rows: map<Identity, Row>, types: set<Text>, offset: nat, bound: nat, rest: seq<Event>)
    requires PageFits(rows, types, offset, bound, rest) && rest != [] && SequenceOf(rest[0]) <= offset
    ensures PageFits(rows, types, offset, bound, rest[1..])
  {
    var tail := rest[1..];
    forall j, e: Event | 0 <= j < |tail| && Awaits(rows, types, offset, e) && SequenceOf(e) <= SequenceOf(tail[j])
      ensures e in tail[..j + 1]
    {
      assert tail[j] == rest[j + 1] && e in rest[..j + 2];
      InTail(rest, e, j);
    }
  }

  lemma InTail(rest: seq<Event>, e: Event, j: nat)
    requires j + 1 < |rest| && e in rest[..j + 2] && e != rest[0]
    ensures e in rest[1..][..j + 1]
  {
    assert rest[..j + 2] == [rest[0]] + rest[1..][..j + 1];
  }

  /** The next current version beyond the offset, if the page has reached it, is the first item. */
  lemma FirstItemIsNext(rows: map<Identity, Row>, types: set<Text>, offset: nat, bound: nat, rest: seq<Event>, e: Event)
    requires PageFits(rows, types, offset, bound, rest) && rest != []
    requires Awaits(rows, types, offset, e) && SequenceOf(e) <= SequenceOf(rest[0])
    ensures e == rest[0]
  {
    assert e in rest[..1];
  }

  /** Moving the offset past the first item loses nothing when that item is settled. */
  lemma NothingLostByAdvance(rows: map<Identity, Row>, types: set<Text>, p: Position, q: Position, bound: nat, rest: seq<Event>)
    requires NothingLost(rows, types, p) && PageFits(rows, types, Offset(p), bound, rest) && rest != []
    requires Advances(p, q) && (Offset(q) == Offset(p) || (Offset(q) == SequenceOf(rest[0]) && Settled(q, rest[0])))
    ensures NothingLost(rows, types, q)
  {
    forall e: Event | IsCurrent(rows, e) && Handles(types, e) && SequenceOf(e) <= Offset(q) ensures Settled(q, e) {
      if SequenceOf(e) <= Offset(p) {
        assert Settled(p, e);
        if e in p.dispatched {
          var i :| 0 <= i < |p.dispatched| && p.dispatched[i] == e;
          assert q.dispatched[i] == e;
        }
      } else {
        FirstItemIsNext(rows, types, Offset(p), bound, rest, e);
      }
    }
  }

  lemma NothingLostByRewrite(before: Table, after: Table, types: set<Text>, p: Position)
    requires NothingLost(before.rows, types, p) && Stamped(before, after) && Offset(p) <= before.sequence
    ensures NothingLost(after.rows, types, p)
  {
    forall e: Event | IsCurrent(after.rows, e) && Handles(types, e) && SequenceOf(e) <= Offset(p) ensures Settled(p, e) {
      RewrittenRowsMoveBehind(before, after, e);
    }
  }

  // ---------------------------------------------------------------- steps

  lemma WorkersFitRewritten(c: Settings, s: State, after: Table)
    requires Inv(c, s) && MayCommit(s.committed, after)
    ensures Inv(c, s.(committed := after, inflight := None))
  {
    var s' := s.(committed := after, inflight := None);
    NothingLostByRewrite(s.committed, after, c.types, s.position);
    forall i | i in s.workers ensures WorkerFits(c, s', s.workers[i]) {
      if !s.workers[i].Asking? {
        PageFitsRewritten(s.committed, after, c.types, Offset(s.position), RestOf(s.workers[i]));
      }
    }
  }

  lemma RollbackIsStamped(before: Table, t: Table)
    requires Stamped(before, t) && WellNumbered(before)
    ensures Stamped(before, RolledBack(before, t)) && WellNumbered(RolledBack(before, t))
  {
  }

  lemma WriterStep(c: Settings, s: State, step: Step)
    requires Inv(c, s) && Enabled(c, s, step)
    requires step.BeginWrite? || step.CommitWrite? || step.RollBackWrite?
    ensures Inv(c, Do(c, s, step))
  {
    match step
    case BeginWrite(_) =>
    case CommitWrite => WorkersFitRewritten(c, s, s.inflight.value);
    case RollBackWrite =>
      RollbackIsStamped(s.committed, s.inflight.value);
      WorkersFitRewritten(c, s, RolledBack(s.committed, s.inflight.value));
  }

  /** The position moves on, and one worker with it. */
  lemma PositionMoves(c: Settings, s: State, q: Position, i: nat, worker: Worker)
    requires Inv(c, s) && Advances(s.position, q) && InOrder(q)
    requires NothingLost(s.committed.rows, c.types, q) && Offset(q) <= s.committed.sequence
    requires WorkerFits(c, s.(position := q), worker)
    ensures Inv(c, Moved(s.(position := q), i, worker))
  {
    var s' := Moved(s.(position := q), i, worker);
    forall k | k in s'.workers ensures WorkerFits(c, s', s'.workers[k]) {
      if k != i {
        assert WorkerFits(c, s, s.workers[k]);
        if !s.workers[k].Asking? {
          PageFitsLater(
            s.committed.rows, c.types, Offset(s.position), Offset(q), s.committed.sequence, RestOf(s.workers[k]));
        }
      }
    }
  }

  /** A page goes on with its tail, or stays, as the position advances past its first item or not. */
  lemma PageMovesOn(c: Settings, s: State, q: Position, rest: seq<Event>)
    requires Inv(c, s) && Advances(s.position, q) && rest != []
    requires PageFits(s.committed.rows, c.types, Offset(s.position), s.committed.sequence, rest)
    requires Offset(q) == Offset(s.position) || (Offset(q) == SequenceOf(rest[0]) && Settled(q, rest[0]))
    ensures NothingLost(s.committed.rows, c.types, q) && Offset(q) <= s.committed.sequence
    ensures PageFits(s.committed.rows, c.types, Offset(q), s.committed.sequence, rest)
    ensures SequenceOf(rest[0]) <= Offset(q) ==>
      PageFits(s.committed.rows, c.types, Offset(q), s.committed.sequence, rest[1..])
  {
    var rows, bound := s.committed.rows, s.committed.sequence;
    NothingLostByAdvance(rows, c.types, s.position, q, bound, rest);
    PageFitsLater(rows, c.types, Offset(s.position), Offset(q), bound, rest);
    if SequenceOf(rest[0]) <= Offset(q) {
      RestFits(rows, c.types, Offset(q), bound, rest);
    }
  }

  lemma TryStep(c: Settings, s: State, i: nat, outcome: Outcome, replyLost: bool)
    requires Inv(c, s) && Enabled(c, s, TryEvent(i, outcome, replyLost))
    ensures Inv(c, Do(c, s, TryEvent(i, outcome, replyLost)))
  {
    var w := WorkerAt(s, i);
    var (q, worker) := Try(s.position, w, outcome, replyLost);
    assert WorkerFits(c, s, w);
    AttemptKeepsOrder(s.position, w.rest[0], w.failure, outcome);
    PageMovesOn(c, s, q, w.rest);
    PositionMoves(c, s, q, i, worker);
  }

  lemma RecordStep(c: Settings, s: State, i: nat)
    requires Inv(c, s) && Enabled(c, s, RecordFailure(i))
    ensures Inv(c, Do(c, s, RecordFailure(i)))
  {
    var w := WorkerAt(s, i);
    var (q, worker) := AfterFailure(c, s.position, w);
    assert WorkerFits(c, s, w);
    RecordKeepsOrder(s.position, w.rest[0], w.refused, w.attemptCount);
    PageMovesOn(c, s, q, w.rest);
    PositionMoves(c, s, q, i, worker);
  }

  lemma EmptyPageFits(rows: map<Identity, Row>, types: set<Text>, offset: nat, bound: nat)
    ensures PageFits(rows, types, offset, bound, [])
  {
  }

  lemma ReadStep(c: Settings, s: State, step: Step)
    requires Inv(c, s) && Enabled(c, s, step)
    requires step.AskForPage? || step.ReceivePage? || step.TakeEvent? || step.GiveUp?
    ensures Inv(c, Do(c, s, step))
  {
    var p := s.position;
    EmptyPageFits(s.committed.rows, c.types, Offset(p), s.committed.sequence);
    assert WorkerFits(c, s, WorkerAt(s, step.i));
    match step
    case AskForPage(i) => PositionMoves(c, s, p, i, Asking(Offset(p)));
    case ReceivePage(i, page, limit) =>
      FreshPageFits(s.committed, c.types, WorkerAt(s, i).cursor, limit, page, Offset(p));
      PositionMoves(c, s, p, i, Holding(page));
    case TakeEvent(i) => PositionMoves(c, s, p, i, Take(p, WorkerAt(s, i).rest));
    case GiveUp(i) => PositionMoves(c, s, p, i, Idle);
    case _ =>
  }

  lemma UnblockStep(c: Settings, s: State, key: VersionKey, state: FailureState)
    requires Inv(c, s) && state != Quarantined
    ensures Inv(c, s.(position := Unblock(s.position, key, state)))
  {
    var q := Unblock(s.position, key, state);
    UnblockKeepsOrder(s.position, key, state);
    forall i | i in s.workers ensures WorkerFits(c, s.(position := q), s.workers[i]) {
      assert WorkerFits(c, s, s.workers[i]);
    }
  }

  lemma StepKeepsInv(c: Settings, s: State, step: Step)
    requires Inv(c, s) && Enabled(c, s, step)
    ensures Inv(c, Do(c, s, step))
  {
    match step
    case TryEvent(i, outcome, replyLost) => TryStep(c, s, i, outcome, replyLost);
    case RecordFailure(i) => RecordStep(c, s, i);
    case UnblockFailure(key, state) => UnblockStep(c, s, key, state);
    case BeginWrite(_) => WriterStep(c, s, step);
    case CommitWrite => WriterStep(c, s, step);
    case RollBackWrite => WriterStep(c, s, step);
    case _ => ReadStep(c, s, step);
  }

  // ---------------------------------------------------------------- runs

  /** Any interleaving of writers, workers and operator actions. */
  ghost predicate IsRun(c: Settings, states: seq<State>, steps: seq<Step>) {
    && |states| == |steps| + 1
    && Init(c, states[0])
    && forall k | 0 <= k < |steps| :: Follows(c, states, steps, k)
  }

  ghost predicate Follows(c: Settings, states: seq<State>, steps: seq<Step>, k: nat)
    requires k < |steps| && |states| == |steps| + 1
  {
    Enabled(c, states[k], steps[k]) && states[k + 1] == Do(c, states[k], steps[k])
  }

  lemma {:induction false} RunKeepsInv(c: Settings, states: seq<State>, steps: seq<Step>, k: nat)
    requires IsRun(c, states, steps) && k < |states|
    ensures Inv(c, states[k])
  {
    if k == 0 {
      InitHolds(c, states[0]);
    } else {
      RunKeepsInv(c, states, steps, k - 1);
      assert Follows(c, states, steps, k - 1);
      StepKeepsInv(c, states[k - 1], steps[k - 1]);
    }
  }

  /**
   No lost change: at every moment of every run, every current row of a handled type
   whose change sequence the committed offset has reached was dispatched or
   quarantined in exactly its current version.
   */
  lemma NoLostChange(c: Settings, states: seq<State>, steps: seq<Step>, k: nat, e: Event)
    requires IsRun(c, states, steps) && k < |states|
    requires IsCurrent(states[k].committed.rows, e) && Handles(c.types, e) && SequenceOf(e) <= Offset(states[k].position)
    ensures e in states[k].position.dispatched || e in states[k].position.quarantined
  {
    RunKeepsInv(c, states, steps, k);
    assert Settled(states[k].position, e);
  }

  /** A consumer that has caught up with the table has settled every row in its current version. */
  lemma CaughtUpMeansSettled(c: Settings, states: seq<State>, steps: seq<Step>, k: nat)
    requires IsRun(c, states, steps) && k < |states|
    requires forall e: Event | IsCurrent(states[k].committed.rows, e) && Handles(c.types, e) ::
      SequenceOf(e) <= Offset(states[k].position)
    ensures forall e: Event | IsCurrent(states[k].committed.rows, e) && Handles(c.types, e) :: Settled(states[k].position, e)
  {
    RunKeepsInv(c, states, steps, k);
  }

  /** One step: the offset never decreases; a dispatch is committed together with its offset, beyond the last one. */
  ghost predicate StepsInOrder(p: Position, q: Position) {
    && Offset(p) <= Offset(q) && p.quarantined <= q.quarantined
    && (|| q.dispatched == p.dispatched
        || exists e :: q.dispatched == p.dispatched + [e] && Offset(p) < SequenceOf(e) == Offset(q))
  }

  lemma EveryStepIsInOrder(c: Settings, s: State, step: Step)
    requires Inv(c, s) && Enabled(c, s, step)
    ensures StepsInOrder(s.position, Do(c, s, step).position)
  {
    match step
    case TryEvent(i, outcome, replyLost) =>
      var w := WorkerAt(s, i);
      assert WorkerFits(c, s, w);
      AttemptKeepsOrder(s.position, w.rest[0], w.failure, outcome);
    case RecordFailure(i) =>
      var w := WorkerAt(s, i);
      assert WorkerFits(c, s, w);
      RecordKeepsOrder(s.position, w.rest[0], w.refused, w.attemptCount);
    case UnblockFailure(key, state) => UnblockKeepsOrder(s.position, key, state);
    case _ =>
  }

  /**
   At most once and in order: over all workers, retries and stale pages, committed
   dispatches have strictly increasing change sequences, each is committed with the
   offset it sets, and the offset never decreases.
   */
  lemma AtMostOnceInOrder(c: Settings, states: seq<State>, steps: seq<Step>, k: nat)
    requires IsRun(c, states, steps) && k < |steps|
    ensures Increasing(states[k + 1].position.dispatched)
    ensures StepsInOrder(states[k].position, states[k + 1].position)
  {
    RunKeepsInv(c, states, steps, k);
    RunKeepsInv(c, states, steps, k + 1);
    assert Follows(c, states, steps, k);
    EveryStepIsInOrder(c, states[k], steps[k]);
  }

  /** Everything dispatched from place d on lies beyond the event, and so does what comes next. */
  ghost predicate BeyondFrom(d: nat, p: Position, e: Event) {
    && d <= |p.dispatched| && Offset(p) >= SequenceOf(e)
    && forall i | d <= i < |p.dispatched| :: SequenceOf(p.dispatched[i]) > SequenceOf(e)
  }

  lemma StaysBeyond(d: nat, p: Position, q: Position, e: Event)
    requires BeyondFrom(d, p, e) && StepsInOrder(p, q)
    ensures BeyondFrom(d, q, e)
  {
  }

  /** Once a version is quarantined, everything dispatched later has a larger change sequence. */
  lemma {:induction false} QuarantineIsFinal(c: Settings, states: seq<State>, steps: seq<Step>, k: nat, m: nat, e: Event)
    requires IsRun(c, states, steps) && k <= m < |states| && e in states[k].position.quarantined
    ensures BeyondFrom(|states[k].position.dispatched|, states[m].position, e)
  {
    if k == m {
      RunKeepsInv(c, states, steps, k);
    } else {
      QuarantineIsFinal(c, states, steps, k, m - 1, e);
      AtMostOnceInOrder(c, states, steps, m - 1);
      StaysBeyond(|states[k].position.dispatched|, states[m - 1].position, states[m].position, e);
    }
  }

  // ---------------------------------------------------------------- nothing is made up

  /** The consumer holds the version, or has settled it. */
  predicate Known(s: State, e: Event) {
    Settled(s.position, e) || exists i | i in s.workers :: e in RestOf(s.workers[i])
  }

  lemma TryKnows(p: Position, w: Worker, outcome: Outcome, replyLost: bool, e: Event)
    requires w.Trying? && w.rest != []
    ensures
      var (q, v) := Try(p, w, outcome, replyLost);
      (Settled(q, e) ==> Settled(p, e) || e in w.rest) && (e in RestOf(v) ==> e in w.rest)
  {
  }

  lemma RecordKnows(c: Settings, p: Position, w: Worker, e: Event)
    requires w.Recording? && w.rest != []
    ensures
      var (q, v) := AfterFailure(c, p, w);
      (Settled(q, e) ==> Settled(p, e) || e in w.rest) && (e in RestOf(v) ==> e in w.rest)
  {
  }

  lemma UnblockKnows(p: Position, key: VersionKey, state: FailureState, e: Event)
    ensures Settled(Unblock(p, key, state), e) ==> Settled(p, e)
  {
  }

  /** A step learns of a version only by receiving it in a page of current rows. */
  lemma NothingIsInvented(c: Settings, s: State, step: Step, e: Event)
    requires Enabled(c, s, step) && Known(Do(c, s, step), e)
    ensures Known(s, e) || (step.ReceivePage? && IsCurrent(s.committed.rows, e) && Handles(c.types, e))
  {
    match step
    case TryEvent(i, outcome, replyLost) => TryKnows(s.position, WorkerAt(s, i), outcome, replyLost, e);
    case RecordFailure(i) => RecordKnows(c, s.position, WorkerAt(s, i), e);
    case UnblockFailure(key, state) => UnblockKnows(s.position, key, state, e);
    case _ =>
  }

  /** The version stood in the table, under a handled type, at some moment up to the k-th. */
  ghost predicate WasStored(c: Settings, states: seq<State>, k: nat, e: Event)
    requires k < |states|
  {
    Handles(c.types, e) && exists m | 0 <= m <= k :: IsCurrent(states[m].committed.rows, e)
  }

  /** Only versions the indexer committed are ever dispatched or quarantined. */
  lemma {:induction false} OnlyStoredVersionsAreSettled(c: Settings, states: seq<State>, steps: seq<Step>, k: nat, e: Event)
    requires IsRun(c, states, steps) && k < |states| && Known(states[k], e)
    ensures WasStored(c, states, k, e)
  {
    if k > 0 {
      assert Follows(c, states, steps, k - 1);
      NothingIsInvented(c, states[k - 1], steps[k - 1], e);
      if Known(states[k - 1], e) {
        OnlyStoredVersionsAreSettled(c, states, steps, k - 1, e);
        var m :| 0 <= m <= k - 1 && IsCurrent(states[m].committed.rows, e);
      } else {
        assert IsCurrent(states[k - 1].committed.rows, e);
      }
    }
  }
}
