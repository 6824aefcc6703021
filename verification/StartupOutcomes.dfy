/** What becomes of a startup: it yields a service unless something went wrong on its way. */
module StartupOutcomes {
  import opened Wrappers
  import opened Texts
  import opened ServiceRegistry

  // ---------------------------------------------------------------- why a startup fails

  /** Startup t read this snapshot identity at step i. */
  predicate Reads(step: Step, t: nat, identity: nat) {
    step.RunQueued? && step.t == t && step.snapshot == Some(identity)
  }

  ghost predicate ReadBefore(steps: seq<Step>, k: nat, t: nat, identity: nat)
    requires k <= |steps|
  {
    exists i | 0 <= i < k :: Reads(steps[i], t, identity)
  }

  /**
   Step j spoils startup t: a snapshot cannot be read, an old service does not close, a
   service is not created or does not start, the registry is not open when it has
   started, or the snapshot read then is not the one read first.
   */
  ghost predicate Spoils(states: seq<Registry>, steps: seq<Step>, j: nat, t: nat)
    requires j < |steps| <= |states|
  {
    match steps[j]
    case RunQueued(u, snapshot, creates) =>
      u == t && t < |states[j].startups|
      && (snapshot.None? || (!creates && states[j].startups[t].lifecycleId !in states[j].services))
    case OldClosed(u, ok, creates) => u == t && (!ok || !creates)
    case Started(u, ok, snapshot) =>
      u == t && (!ok || states[j].state != Open || snapshot.None? || !ReadBefore(steps, j, t, snapshot.value))
    case _ => false
  }

  ghost predicate SpoiltBefore(states: seq<Registry>, steps: seq<Step>, k: nat, t: nat)
    requires k <= |steps| <= |states|
  {
    exists j | 0 <= j < k :: Spoils(states, steps, j, t)
  }

  /** A startup that is on its way to nothing, or has come to nothing. */
  predicate Fails(u: Startup) {
    u.ClosingLate? || u.CleaningUp? || (u.Settled? && u.result.None?)
  }

  /** The snapshot identity that a startup past the queue works under. */
  function IdentityOf(u: Startup): Option<nat> {
    match u
    case ClosingOld(_, identity, _) => Some(identity)
    case Starting(_, identity, _) => Some(identity)
    case _ => None
  }

  /** What the steps so far say about startup t: why it fails, and the one snapshot identity it has read. */
  ghost predicate Explained(states: seq<Registry>, steps: seq<Step>, k: nat, t: nat)
    requires k <= |steps| < |states| && t < |states[k].startups|
  {
    var u := states[k].startups[t];
    && (Fails(u) <==> SpoiltBefore(states, steps, k, t))
    && (u.Queued? ==> forall i: nat :: !ReadBefore(steps, k, t, i))
    && (IdentityOf(u).Some? ==> forall i: nat :: ReadBefore(steps, k, t, i) <==> IdentityOf(u) == Some(i))
  }

  lemma StepKeepsStartups(r: Registry, step: Step)
    requires Enabled(r, step)
    ensures |r.startups| <= |Do(r, step).startups|
  {
    if |r.startups| > 0 && StartupOf(step) != Some(|r.startups| - 1) { OthersStay(r, step, |r.startups| - 1); }
  }

  lemma {:induction false} StartupsOnlyGrow(states: seq<Registry>, steps: seq<Step>, j: nat, k: nat)
    requires IsRun(states, steps) && j <= k < |states|
    ensures |states[j].startups| <= |states[k].startups|
  {
    if j < k {
      StartupsOnlyGrow(states, steps, j, k - 1);
      assert Follows(states, steps, k - 1);
      StepKeepsStartups(states[k - 1], steps[k - 1]);
    }
  }

  /** The startup a step belongs to, if it belongs to one. */
  function StartupOf(step: Step): Option<nat> {
    match step
    case RunQueued(t, _, _) => Some(t)
    case OldClosed(t, _, _) => Some(t)
    case Started(t, _, _) => Some(t)
    case LateClosed(t, _) => Some(t)
    case CleanedUp(t, _) => Some(t)
    case _ => None
  }

  /** The steps of getService and close() themselves leave every startup alone. */
  lemma CallersLeaveStartups(r: Registry, step: Step, t: nat)
    requires Enabled(r, step) && t < |r.startups| && StartupOf(step).None?
    ensures t < |Do(r, step).startups| && Do(r, step).startups[t] == r.startups[t]
  {
  }

  /** A step leaves the startups alone that it does not belong to. */
  lemma OthersStay(r: Registry, step: Step, t: nat)
    requires Enabled(r, step) && t < |r.startups| && StartupOf(step) != Some(t)
    ensures t < |Do(r, step).startups| && Do(r, step).startups[t] == r.startups[t]
  {
    match step
    case RunQueued(u, snapshot, creates) => QueuedLeavesOthers(r, u, snapshot, creates, t);
    case OldClosed(u, ok, creates) =>
    case Started(u, ok, snapshot) =>
    case LateClosed(u, ok) =>
    case CleanedUp(u, ok) =>
    case _ => CallersLeaveStartups(r, step, t);
  }

  lemma QueuedLeavesOthers(r: Registry, u: nat, snapshot: Option<nat>, creates: bool, t: nat)
    requires u < |r.startups| && t < |r.startups| && t != u
    ensures var r' := DoRunQueued(r, u, snapshot, creates); t < |r'.startups| && r'.startups[t] == r.startups[t]
  {
  }

  lemma LateClosedMoves(r: Registry, t: nat, ok: bool)
    requires Enabled(r, LateClosed(t, ok))
    ensures Fails(r.startups[t]) && Fails(Do(r, LateClosed(t, ok)).startups[t])
    ensures IdentityOf(Do(r, LateClosed(t, ok)).startups[t]).None? && !Do(r, LateClosed(t, ok)).startups[t].Queued?
  {
  }

  lemma CleanedUpMoves(r: Registry, t: nat, ok: bool)
    requires Enabled(r, CleanedUp(t, ok))
    ensures Fails(r.startups[t]) && Fails(Do(r, CleanedUp(t, ok)).startups[t])
    ensures IdentityOf(Do(r, CleanedUp(t, ok)).startups[t]).None? && !Do(r, CleanedUp(t, ok)).startups[t].Queued?
  {
  }

  lemma QueuedMoves(r: Registry, t: nat, snapshot: Option<nat>, creates: bool)
    requires Inv(r) && Enabled(r, RunQueued(t, snapshot, creates))
    ensures
      var u := Do(r, RunQueued(t, snapshot, creates)).startups[t];
      && !Fails(r.startups[t]) && !u.Queued?
      && (Fails(u) <==> snapshot.None? || (!creates && r.startups[t].lifecycleId !in r.services))
      && (IdentityOf(u).Some? ==> IdentityOf(u) == snapshot)
  {
    OwnEntries(r, t);
  }

  lemma OldClosedMoves(r: Registry, t: nat, ok: bool, creates: bool)
    requires Inv(r) && Enabled(r, OldClosed(t, ok, creates))
    ensures
      var u := Do(r, OldClosed(t, ok, creates)).startups[t];
      && !Fails(r.startups[t]) && !u.Queued?
      && (Fails(u) <==> !ok || !creates)
      && (IdentityOf(u).Some? ==> IdentityOf(u) == IdentityOf(r.startups[t]))
  {
  }

  lemma StartedMoves(r: Registry, t: nat, ok: bool, snapshot: Option<nat>)
    requires Inv(r) && Enabled(r, Started(t, ok, snapshot))
    ensures
      var u := Do(r, Started(t, ok, snapshot)).startups[t];
      && !Fails(r.startups[t]) && !u.Queued? && IdentityOf(u).None? && IdentityOf(r.startups[t]).Some?
      && (Fails(u) <==> !ok || r.state != Open || snapshot != IdentityOf(r.startups[t]))
  {
  }

  lemma NewStartupIsQueued(r: Registry, step: Step, t: nat)
    requires Enabled(r, step) && |r.startups| <= t < |Do(r, step).startups|
    ensures Do(r, step).startups[t].Queued?
  {
  }

  /** A startup is queued when it appears, and no step before belonged to it. */
  lemma NewStartupIsExplained(states: seq<Registry>, steps: seq<Step>, k: nat, t: nat)
    requires IsRun(states, steps) && k < |states| && t < |states[k].startups|
    requires k == 0 || |states[k - 1].startups| <= t
    ensures k > 0 && states[k].startups[t].Queued? && Explained(states, steps, k, t)
  {
    forall j | 0 <= j < k ensures StartupOf(steps[j]) != Some(t) {
      StartupsOnlyGrow(states, steps, j, k - 1);
      assert Follows(states, steps, j);
    }
    assert k > 0 && Follows(states, steps, k - 1);
    NewStartupIsQueued(states[k - 1], steps[k - 1], t);
  }

  lemma OneStepLater(states: seq<Registry>, steps: seq<Step>, k: nat, t: nat)
    requires 0 < k <= |steps| <= |states|
    ensures SpoiltBefore(states, steps, k, t) <==> SpoiltBefore(states, steps, k - 1, t) || Spoils(states, steps, k - 1, t)
    ensures forall i: nat :: ReadBefore(steps, k, t, i) <==> ReadBefore(steps, k - 1, t, i) || Reads(steps[k - 1], t, i)
  {
  }

  lemma StepIsExplained(states: seq<Registry>, steps: seq<Step>, k: nat, t: nat)
    requires IsRun(states, steps) && k < |steps| && t < |states[k].startups| && t < |states[k + 1].startups|
    requires Explained(states, steps, k, t)
    ensures Explained(states, steps, k + 1, t)
  {
    var r, step := states[k], steps[k];
    RunKeepsInv(states, steps, k);
    assert Follows(states, steps, k);
    OneStepLater(states, steps, k + 1, t);
    if StartupOf(step) != Some(t) {
      OthersStay(r, step, t);
    } else {
      match step
      case RunQueued(_, snapshot, creates) => QueuedMoves(r, t, snapshot, creates);
      case OldClosed(_, ok, creates) => OldClosedMoves(r, t, ok, creates);
      case Started(_, ok, snapshot) => StartedMoves(r, t, ok, snapshot);
      case LateClosed(_, ok) => LateClosedMoves(r, t, ok);
      case CleanedUp(_, ok) => CleanedUpMoves(r, t, ok);
    }
  }

  lemma {:induction false} EveryStartupIsExplained(states: seq<Registry>, steps: seq<Step>, k: nat, t: nat)
    requires IsRun(states, steps) && k < |states| && t < |states[k].startups|
    ensures Explained(states, steps, k, t)
  {
    if k == 0 || |states[k - 1].startups| <= t {
      NewStartupIsExplained(states, steps, k, t);
    } else {
      EveryStartupIsExplained(states, steps, k - 1, t);
      StepIsExplained(states, steps, k - 1, t);
    }
  }

  /**
   In every run: a settled startup has come to nothing exactly if some step spoilt it.
   If nothing did, its callers get a service.
   */
  lemma FailsExactlyWhenSpoilt(states: seq<Registry>, steps: seq<Step>, k: nat, t: nat)
    requires IsRun(states, steps) && k < |states| && t < |states[k].startups| && states[k].startups[t].Settled?
    ensures states[k].startups[t].result.None? <==> SpoiltBefore(states, steps, k, t)
  {
    EveryStartupIsExplained(states, steps, k, t);
  }

  // ---------------------------------------------------------------- what its callers get

  /** Startup t settles at step j with service s, current under the identity the startup read. */
  ghost predicate SettlesAt(states: seq<Registry>, steps: seq<Step>, j: nat, t: nat, s: nat)
    requires j < |steps| < |states|
  {
    && InFlight(states[j], t) && t < |states[j + 1].startups|
    && Resolves(states[j + 1], t, s) && Serves(states[j + 1], t, s, SnapshotRead(steps[j]))
    && ReadBefore(steps, j + 1, t, SnapshotRead(steps[j]).value)
  }

  /** A settled startup stays as it is. */
  lemma SettledStays(r: Registry, step: Step, t: nat)
    requires Enabled(r, step) && t < |r.startups| && r.startups[t].Settled?
    ensures t < |Do(r, step).startups| && Do(r, step).startups[t] == r.startups[t]
  {
    assert StartupOf(step) != Some(t);
    OthersStay(r, step, t);
  }

  lemma SettlesUnderItsIdentity(states: seq<Registry>, steps: seq<Step>, j: nat, t: nat, s: nat)
    requires IsRun(states, steps) && j < |steps| && InFlight(states[j], t)
    requires t < |states[j + 1].startups| && Resolves(states[j + 1], t, s)
    ensures SettlesAt(states, steps, j, t, s)
  {
    var r, step := states[j], steps[j];
    RunKeepsInv(states, steps, j);
    assert Follows(states, steps, j);
    ServesCurrentSnapshot(r, step, t, s);
    OneStepLater(states, steps, j + 1, t);
    EveryStartupIsExplained(states, steps, j, t);
    if StartupOf(step) != Some(t) {
      OthersStay(r, step, t);
      assert false;
    }
    match step
    case RunQueued(_, snapshot, creates) => assert Reads(step, t, SnapshotRead(step).value);
    case Started(_, ok, snapshot) => StartedMoves(r, t, ok, snapshot);
    case _ =>
  }

  lemma SettledBefore(states: seq<Registry>, steps: seq<Step>, k: nat, t: nat, s: nat)
    requires IsRun(states, steps) && k < |steps| && t < |states[k].startups| && t < |states[k + 1].startups|
    requires !InFlight(states[k], t) && Resolves(states[k + 1], t, s)
    ensures Resolves(states[k], t, s)
  {
    assert Follows(states, steps, k);
    SettledStays(states[k], steps[k], t);
  }

  /** In every run: a service that getService resolved to was current, of that id, when it did. */
  lemma {:induction false} ResolvedServiceWasCurrent(states: seq<Registry>, steps: seq<Step>, k: nat, t: nat, s: nat)
    requires IsRun(states, steps) && k < |states| && t < |states[k].startups| && Resolves(states[k], t, s)
    ensures exists j | 0 <= j < k :: SettlesAt(states, steps, j, t, s)
  {
    if k == 0 || |states[k - 1].startups| <= t {
      NewStartupIsExplained(states, steps, k, t);
    } else if InFlight(states[k - 1], t) {
      SettlesUnderItsIdentity(states, steps, k - 1, t, s);
    } else {
      SettledBefore(states, steps, k - 1, t, s);
      ResolvedServiceWasCurrent(states, steps, k - 1, t, s);
    }
  }

  /** A step of startup t at which everything it asks for succeeds. */
  predicate GoesWell(step: Step, t: nat, identity: nat) {
    step == RunQueued(t, Some(identity), true) || step == OldClosed(t, true, true) || step == Started(t, true, Some(identity))
  }

  ghost predicate GoodRun(rs: seq<Registry>, steps: seq<Step>, t: nat, identity: nat) {
    |rs| == |steps| + 1 && forall k | 0 <= k < |steps| :: Follows(rs, steps, k) && GoesWell(steps[k], t, identity)
  }

  predicate Served(r: Registry, t: nat, s: nat, identity: nat) {
    && t < |r.startups| && s < |r.created| && Resolves(r, t, s) && Serves(r, t, s, Some(identity))
  }

  lemma BegunIsServed(r: Registry, t: nat, identity: nat) returns (last: Registry)
    requires Inv(r) && t < |r.startups| && r.state == Open
    requires r.startups[t].Starting? && r.startups[t].identity == identity
    ensures Enabled(r, Started(t, true, Some(identity))) && last == Do(r, Started(t, true, Some(identity)))
    ensures Served(last, t, r.startups[t].service, identity) && last.created == r.created
  {
    OwnEntries(r, t);
    last := Do(r, Started(t, true, Some(identity)));
    StartedStep(r, t, true, Some(identity));
  }

  /** A current cached service is handed out as it is: nothing is created or closed. */
  lemma CurrentServiceIsReused(r: Registry, t: nat, identity: nat) returns (last: Registry)
    requires Inv(r) && t < |r.startups| && r.startups[t].Queued?
    requires
      var id := r.startups[t].lifecycleId;
      id in r.services && r.identities[id] == identity
    ensures GoodRun([r, last], [RunQueued(t, Some(identity), true)], t, identity)
    ensures Served(last, t, r.services[r.startups[t].lifecycleId], identity) && last.created == r.created
  {
    OwnEntries(r, t);
    last := Do(r, RunQueued(t, Some(identity), true));
  }

  /** With nothing cached a service is created and handed out. */
  lemma NewServiceIsServed(r: Registry, t: nat, identity: nat) returns (rs: seq<Registry>, steps: seq<Step>)
    requires Inv(r) && t < |r.startups| && r.startups[t].Queued? && r.state == Open && r.startups[t].lifecycleId !in r.services
    ensures GoodRun(rs, steps, t, identity) && |steps| == 2 && rs[0] == r
    ensures Served(rs[2], t, |r.created|, identity)
    ensures rs[2].created == r.created + [Service(r.startups[t].lifecycleId, 0, false, 0)]
  {
    var first := RunQueued(t, Some(identity), true);
    var begun := Do(r, first);
    RunQueuedStep(r, t, Some(identity), true);
    var last := BegunIsServed(begun, t, identity);
    rs, steps := [r, begun, last], [first, Started(t, true, Some(identity))];
  }

  /** A cached service of another snapshot is closed, once, before a new one is created and handed out. */
  lemma StaleServiceIsReplaced(r: Registry, t: nat, identity: nat) returns (rs: seq<Registry>, steps: seq<Step>)
    requires Inv(r) && t < |r.startups| && r.startups[t].Queued? && r.state == Open
    requires
      var id := r.startups[t].lifecycleId;
      id in r.services && r.identities[id] != identity
    ensures GoodRun(rs, steps, t, identity) && |steps| == 3 && rs[0] == r
    ensures Served(rs[3], t, |r.created|, identity)
    ensures
      var id := r.startups[t].lifecycleId;
      rs[3].created == r.created[r.services[id] := Service(id, 1, false, 0)] + [Service(id, 0, false, 0)]
  {
    var id, old_ := r.startups[t].lifecycleId, r.services[r.startups[t].lifecycleId];
    OwnEntries(r, t);
    var first, second := RunQueued(t, Some(identity), true), OldClosed(t, true, true);
    var closing := Do(r, first);
    RunQueuedStep(r, t, Some(identity), true);
    var begun := Do(closing, second);
    OldClosedStep(closing, t, true, true);
    var last := BegunIsServed(begun, t, identity);
    rs, steps := [r, closing, begun, last], [first, second, Started(t, true, Some(identity))];
  }
}
