/** One worker left alone: its steps in the consumer's state machine are processEventWithRetries. */
module WorkerTurn {
  import opened Wrappers
  import opened ChangeFeed
  import opened Progress
  import Consumer
  import EventsProcessor

  /** The worker's steps on one event, until it is done with it or gives up. */
  function Turn(
    c: Consumer.Settings, p: Position, w: Consumer.Worker, answers: EventsProcessor.Answers, n: nat): (Position, Consumer.Worker)
    requires w.Trying? && w.rest != []
    decreases c.maxAttempts - n
  {
    if answers.stopping(n) || n >= c.maxAttempts then (p, Consumer.Idle)
    else
      var (q, tried) := Consumer.Try(p, w, answers.outcome(n), false);
      if !tried.Recording? then (q, tried)
      else
        var (recorded, next) := Consumer.AfterFailure(c, q, tried);
        if next.Trying? then Turn(c, recorded, next, answers, n + 1) else (recorded, next)
  }

  /** Where a worker stands after an event: at the rest of the page, or out of the pass. */
  function After(rest: seq<Event>, result: EventsProcessor.EventResult): Consumer.Worker
    requires rest != []
  {
    if result == EventsProcessor.ResultBlocked then Consumer.Idle else Consumer.Holding(rest[1..])
  }

  /** A lost commit reply is an error to the worker: the transaction stands, and an attempt more is recorded. */
  lemma LostReplyCountsAsError(p: Position, rest: seq<Event>, failure: Option<FailureRow>, count: nat, n: nat, outcome: Outcome)
    requires rest != []
    ensures
      var w := Consumer.Trying(rest, failure, count, n);
      && Consumer.Try(p, w, outcome, true).0 == Consumer.Try(p, w, outcome, false).0
      && Consumer.Try(p, w, outcome, true).1 == Consumer.Recording(rest, outcome == Refuses && !Passed(p, rest[0]), count + 1, n + 1)
  {
  }

  /** A thrown error is tried again only below the limit of the pass; a refusal goes on with the next event. */
  lemma LimitEndsThePass(c: Consumer.Settings, p: Position, rest: seq<Event>, refused: bool, count: nat, n: nat)
    requires rest != []
    ensures
      var next := Consumer.AfterFailure(c, p, Consumer.Recording(rest, refused, count, n)).1;
      if refused then next == Consumer.Holding(rest[1..])
      else if n < c.maxAttempts then next == Consumer.Trying(rest, FailureOf(Record(p, rest[0], false, count), rest[0]), count, n)
      else next == Consumer.Idle
  {
  }

  lemma {:induction false} TurnIsRetry(
    c: Consumer.Settings, p: Position, rest: seq<Event>, failure: Option<FailureRow>, attemptCount: nat,
    answers: EventsProcessor.Answers, n: nat)
    requires rest != []
    ensures
      var r := EventsProcessor.Retry(p, rest[0], failure, attemptCount, n, answers, c.maxAttempts);
      Turn(c, p, Consumer.Trying(rest, failure, attemptCount, n), answers, n) == (r.position, After(rest, r.result))
    decreases c.maxAttempts - n
  {
    if !(answers.stopping(n) || n >= c.maxAttempts) {
      var r := Attempt(p, rest[0], failure, answers.outcome(n));
      if r.verdict.Failed? && !r.verdict.refused {
        var q := Record(r.position, rest[0], false, attemptCount + 1);
        TurnIsRetry(c, q, rest, FailureOf(q, rest[0]), attemptCount + 1, answers, n + 1);
      }
    }
  }

  /** Taking an event and its turn together leave offset, failure rows, history and worker as the method does. */
  lemma UndisturbedWorkerHandles(
    c: Consumer.Settings, p: Position, rest: seq<Event>, answers: EventsProcessor.Answers)
    requires rest != []
    ensures
      var r := EventsProcessor.Handle(p, rest[0], answers, c.maxAttempts);
      var taken := Consumer.Take(p, rest);
      (if taken.Trying? then Turn(c, p, taken, answers, 0) else (p, taken)) == (r.position, After(rest, r.result))
  {
    var taken := Consumer.Take(p, rest);
    if taken.Trying? {
      TurnIsRetry(c, p, rest, taken.failure, taken.attemptCount, answers, 0);
    }
  }
}
