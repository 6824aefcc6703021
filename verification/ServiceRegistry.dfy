/**
 The registry of staking ledger services: one service per lifecycle id, shared
 startups, snapshot checks, and a close() that may race with all of them. A step is
 what runs between two awaits.
 */
module ServiceRegistry {
  import opened Wrappers
  import opened Texts

  // ---------------------------------------------------------------- lifecycle ids

  const MAX_UINT32 := 4_294_967_295

  function NormalizeLifecycleId(lifecycleId: Text): Option<Text> {
    var t := Trim(lifecycleId);
    if t == [] || !AllDigits(t) || |t| > 20 || DigitsValue(t) > MAX_UINT32 then None else Some(DecimalText(DigitsValue(t)))
  }

  /** An id is taken exactly if it is, trimmed, one to twenty digits of a 32-bit number; it stands for that number. */
  lemma NormalIdsAreNumbers(lifecycleId: Text)
    ensures NormalizeLifecycleId(lifecycleId).Some? <==>
      var t := Trim(lifecycleId);
      1 <= |t| <= 20 && AllDigits(t) && DigitsValue(t) <= 4_294_967_295
    ensures NormalizeLifecycleId(lifecycleId).Some? ==>
      && IsNonnegativeDecimal(NormalizeLifecycleId(lifecycleId).value)
      && DigitsValue(NormalizeLifecycleId(lifecycleId).value) == DigitsValue(Trim(lifecycleId))
  {
  }

  /** Ids are one exactly when they write the same number; a normalized id is its own normal form. */
  lemma NormalIdsAreCanonical(a: Text, b: Text)
    requires NormalizeLifecycleId(a).Some? && NormalizeLifecycleId(b).Some?
    ensures NormalizeLifecycleId(a) == NormalizeLifecycleId(b) <==> DigitsValue(Trim(a)) == DigitsValue(Trim(b))
    ensures NormalizeLifecycleId(NormalizeLifecycleId(a).value) == NormalizeLifecycleId(a)
  {
    var t := NormalizeLifecycleId(a).value;
    assert Trim(t) == t;
    CanonicalIsShort(t);
  }

  lemma CanonicalIsShort(t: Text)
    requires IsNonnegativeDecimal(t) && DigitsValue(t) <= MAX_UINT32
    ensures |t| <= 20
  {
    TenToTheTenth();
    if |t| > 1 {
      LongNumbersAreLarge(t);
    }
    if |t| > 10 {
      Pow10Grows(10, |t| - 1);
    }
  }

  // ---------------------------------------------------------------- state

  datatype RegistryState = Open | Closing | Closed

  /** A created service: how often close() was called on it, whether a call is under way, how many failed. */
  datatype Service = Service(lifecycleId: Text, calls: nat, pending: bool, failures: nat)

  /** One startup, by what it awaits. Services are numbered in the order they are created. */
  datatype Startup =
    | Queued(lifecycleId: Text)
    | ClosingOld(lifecycleId: Text, identity: nat, service: nat)
    | Starting(lifecycleId: Text, identity: nat, service: nat)
    | ClosingLate(lifecycleId: Text, service: nat)
    | CleaningUp(lifecycleId: Text, service: nat)
    | Settled(lifecycleId: Text, result: Option<nat>)

  datatype Closer =
    | NotClosing
    | AwaitingStartups(waiting: set<nat>)
    | ClosingServices(left: set<nat>)
    | CloseSettled

  /** Startups are numbered too; startupPromises holds the number of the one in flight. */
  datatype Registry = Registry(
    state: RegistryState, services: map<Text, nat>, identities: map<Text, nat>, startupPromises: map<Text, nat>,
    startups: seq<Startup>, created: seq<Service>, closer: Closer)

  const EMPTY := Registry(Open, map[], map[], map[], [], [], NotClosing)

  predicate InFlight(r: Registry, t: nat) {
    t < |r.startups| && !r.startups[t].Settled?
  }

  // ---------------------------------------------------------------- steps

  /** snapshot is the answer of snapshotIdentity, None when it throws; creates and ok say whether a call succeeds. */
  datatype Step =
    | GetService(lifecycleId: Text)
    | RunQueued(t: nat, snapshot: Option<nat>, creates: bool)
    | OldClosed(t: nat, ok: bool, creates: bool)
    | Started(t: nat, ok: bool, snapshot: Option<nat>)
    | LateClosed(t: nat, ok: bool)
    | CleanedUp(t: nat, ok: bool)
    | Close
    | StartupsSettled
    | ServiceClosed(service: nat, ok: bool)
    | CloseEnds

  predicate Enabled(r: Registry, step: Step) {
    match step
    case GetService(_) => true
    case RunQueued(t, _, _) => t < |r.startups| && r.startups[t].Queued?
    case OldClosed(t, _, _) => t < |r.startups| && r.startups[t].ClosingOld? && r.startups[t].service < |r.created|
    case Started(t, _, _) => t < |r.startups| && r.startups[t].Starting? && r.startups[t].service < |r.created|
    case LateClosed(t, _) => t < |r.startups| && r.startups[t].ClosingLate? && r.startups[t].service < |r.created|
    case CleanedUp(t, _) => t < |r.startups| && r.startups[t].CleaningUp? && r.startups[t].service < |r.created|
    case Close => true
    case StartupsSettled => r.closer.AwaitingStartups? && forall t | t in r.closer.waiting :: !InFlight(r, t)
    case ServiceClosed(service, _) => r.closer.ClosingServices? && service in r.closer.left && service < |r.created|
    case CloseEnds => r.closer == ClosingServices({})
  }

  function CallClose(s: Service): Service {
    s.(calls := s.calls + 1, pending := true)
  }

  function EndClose(s: Service, ok: bool): Service {
    s.(pending := false, failures := if ok then s.failures else s.failures + 1)
  }

  /** The finally block: the startup settles and leaves the map if it is still the one there. */
  function Finish(r: Registry, t: nat, result: Option<nat>): Registry
    requires t < |r.startups|
  {
    var id := r.startups[t].lifecycleId;
    r.(startups := r.startups[t := Settled(id, result)],
       startupPromises := if id in r.startupPromises && r.startupPromises[id] == t then r.startupPromises - {id} else r.startupPromises)
  }

  /** createService and the call of start(). */
  function Begin(r: Registry, t: nat, identity: nat, creates: bool): Registry
    requires t < |r.startups|
  {
    var id := r.startups[t].lifecycleId;
    if !creates then Finish(r, t, None)
    else
      r.(startups := r.startups[t := Starting(id, identity, |r.created|)],
         created := r.created + [Service(id, 0, false, 0)])
  }

  function Became(r: Registry, t: nat, startup: Startup, service: nat, s: Service): Registry
    requires t < |r.startups| && service < |r.created|
  {
    r.(startups := r.startups[t := startup], created := r.created[service := s])
  }

  function DoGetService(r: Registry, lifecycleId: Text): Registry {
    var id := NormalizeLifecycleId(lifecycleId);
    if r.state != Open || id.None? || id.value in r.startupPromises then r
    else
      r.(startups := r.startups + [Queued(id.value)], startupPromises := r.startupPromises[id.value := |r.startups|])
  }

  function DoRunQueued(r: Registry, t: nat, snapshot: Option<nat>, creates: bool): Registry
    requires t < |r.startups|
  {
    var id := r.startups[t].lifecycleId;
    if snapshot.None? then Finish(r, t, None)
    else if id in r.services && id in r.identities && r.identities[id] == snapshot.value then Finish(r, t, Some(r.services[id]))
    else if id in r.services && r.services[id] < |r.created| then
      Became(
        r.(services := r.services - {id}, identities := r.identities - {id}), t,
        ClosingOld(id, snapshot.value, r.services[id]), r.services[id], CallClose(r.created[r.services[id]]))
    else Begin(r, t, snapshot.value, creates)
  }

  function DoOldClosed(r: Registry, t: nat, ok: bool, creates: bool): Registry
    requires Enabled(r, OldClosed(t, ok, creates))
  {
    var u := r.startups[t];
    var settled := Became(r, t, u, u.service, EndClose(r.created[u.service], ok));
    if ok then Begin(settled, t, u.identity, creates) else Finish(settled, t, None)
  }

  function DoStarted(r: Registry, t: nat, ok: bool, snapshot: Option<nat>): Registry
    requires Enabled(r, Started(t, ok, snapshot))
  {
    var u := r.startups[t];
    var closing := CallClose(r.created[u.service]);
    if !ok then Became(r, t, CleaningUp(u.lifecycleId, u.service), u.service, closing)
    else if r.state != Open then Became(r, t, ClosingLate(u.lifecycleId, u.service), u.service, closing)
    else if snapshot != Some(u.identity) then Became(r, t, CleaningUp(u.lifecycleId, u.service), u.service, closing)
    else
      Finish(
        r.(services := r.services[u.lifecycleId := u.service], identities := r.identities[u.lifecycleId := u.identity]),
        t, Some(u.service))
  }

  function DoLateClosed(r: Registry, t: nat, ok: bool): Registry
    requires Enabled(r, LateClosed(t, ok))
  {
    var u := r.startups[t];
    var ended := EndClose(r.created[u.service], ok);
    if ok then Finish(Became(r, t, u, u.service, ended), t, None)
    else Became(r, t, CleaningUp(u.lifecycleId, u.service), u.service, CallClose(ended))
  }

  function DoCleanedUp(r: Registry, t: nat, ok: bool): Registry
    requires Enabled(r, CleanedUp(t, ok))
  {
    var u := r.startups[t];
    Finish(Became(r, t, u, u.service, EndClose(r.created[u.service], ok)), t, None)
  }

  function DoClose(r: Registry): Registry {
    if r.closer.NotClosing? then r.(state := Closing, closer := AwaitingStartups(r.startupPromises.Values)) else r
  }

  function CallCloseOf(created: seq<Service>, chosen: set<nat>): (c: seq<Service>)
    ensures |c| == |created|
    ensures forall i | 0 <= i < |created| :: c[i] == if i in chosen then CallClose(created[i]) else created[i]
  {
    seq(|created|, i requires 0 <= i < |created| => if i in chosen then CallClose(created[i]) else created[i])
  }

  function DoStartupsSettled(r: Registry): Registry {
    r.(services := map[], identities := map[], closer := ClosingServices(r.services.Values),
       created := CallCloseOf(r.created, r.services.Values))
  }

  function Do(r: Registry, step: Step): Registry
    requires Enabled(r, step)
  {
    match step
    case GetService(lifecycleId) => DoGetService(r, lifecycleId)
    case RunQueued(t, snapshot, creates) => DoRunQueued(r, t, snapshot, creates)
    case OldClosed(t, ok, creates) => DoOldClosed(r, t, ok, creates)
    case Started(t, ok, snapshot) => DoStarted(r, t, ok, snapshot)
    case LateClosed(t, ok) => DoLateClosed(r, t, ok)
    case CleanedUp(t, ok) => DoCleanedUp(r, t, ok)
    case Close => DoClose(r)
    case StartupsSettled => DoStartupsSettled(r)
    case ServiceClosed(service, ok) =>
      r.(created := r.created[service := EndClose(r.created[service], ok)], closer := ClosingServices(r.closer.left - {service}))
    case CloseEnds => r.(state := Closed, startupPromises := map[], closer := CloseSettled)
  }

  // ---------------------------------------------------------------- invariant

  /** The startup in flight for an id is the one in the map, and the other way round. */
  ghost predicate PromisesFit(r: Registry) {
    && (forall id | id in r.startupPromises ::
          InFlight(r, r.startupPromises[id]) && r.startups[r.startupPromises[id]].lifecycleId == id)
    && (forall t: nat | InFlight(r, t) :: PromisedAt(r, t))
  }

  predicate PromisedAt(r: Registry, t: nat)
    requires t < |r.startups|
  {
    r.startups[t].lifecycleId in r.startupPromises && r.startupPromises[r.startups[t].lifecycleId] == t
  }

  predicate Untouched(s: Service) {
    s.calls == 0 && !s.pending && s.failures == 0
  }

  /** A cached service is untouched, and no startup of its id has gone past the queue. */
  ghost predicate CacheFits(r: Registry) {
    && r.identities.Keys == r.services.Keys
    && forall id | id in r.services :: CachedFits(r, id)
  }

  predicate CachedFits(r: Registry, id: Text)
    requires id in r.services
  {
    && r.services[id] < |r.created|
    && r.created[r.services[id]].lifecycleId == id && Untouched(r.created[r.services[id]])
    && (id in r.startupPromises ==>
          r.startupPromises[id] < |r.startups| && r.startups[r.startupPromises[id]].Queued?)
  }

  predicate StartupFits(r: Registry, u: Startup) {
    match u
    case Queued(_) => true
    case Settled(_, _) => true
    case Starting(id, _, service) => service < |r.created| && r.created[service].lifecycleId == id && Untouched(r.created[service])
    case ClosingOld(id, _, service) => ClosesFirst(r, id, service)
    case ClosingLate(id, service) => ClosesFirst(r, id, service)
    case CleaningUp(id, service) =>
      && service < |r.created| && r.created[service].lifecycleId == id
      && r.created[service].pending && r.created[service].calls == r.created[service].failures + 1
  }

  predicate ClosesFirst(r: Registry, id: Text, service: nat) {
    && service < |r.created| && r.created[service].lifecycleId == id
    && r.created[service].pending && r.created[service].calls == 1 && r.created[service].failures == 0
  }

  predicate Holds(u: Startup, service: nat) {
    match u
    case Queued(_) => false
    case Settled(_, _) => false
    case Starting(_, _, s) => s == service
    case ClosingOld(_, _, s) => s == service
    case ClosingLate(_, s) => s == service
    case CleaningUp(_, s) => s == service
  }

  /** A service without an answer to a close: never asked to close, or asked and not answered. */
  predicate Live(s: Service) {
    s.calls == 0 || s.pending
  }

  /** Who answers for a live service: the cache, the startup of its id, or close(). */
  predicate Owned(r: Registry, service: nat)
    requires service < |r.created|
  {
    var id := r.created[service].lifecycleId;
    || (id in r.services && r.services[id] == service)
    || (id in r.startupPromises && r.startupPromises[id] < |r.startups| && Holds(r.startups[r.startupPromises[id]], service))
    || (r.closer.ClosingServices? && service in r.closer.left)
  }

  /** Close is called again only after a failed call. */
  predicate ServiceFits(r: Registry, service: nat)
    requires service < |r.created|
  {
    var s := r.created[service];
    s.failures <= s.calls <= s.failures + 1 && (Live(s) ==> Owned(r, service))
  }

  ghost predicate CloserFits(r: Registry) {
    match r.closer
    case NotClosing => r.state == Open
    case AwaitingStartups(waiting) => r.state == Closing && forall id | id in r.startupPromises :: r.startupPromises[id] in waiting
    case ClosingServices(left) =>
      && r.state == Closing && r.startupPromises == map[] && r.services == map[]
      && (forall s | s in left :: s < |r.created| && ClosesFirst(r, r.created[s].lifecycleId, s))
      && (forall a, b | a in left && b in left && r.created[a].lifecycleId == r.created[b].lifecycleId :: a == b)
    case CloseSettled => r.state == Closed && r.startupPromises == map[] && r.services == map[]
  }

  ghost predicate Inv(r: Registry) {
    && PromisesFit(r) && CacheFits(r)
    && (forall t | 0 <= t < |r.startups| :: StartupFits(r, r.startups[t]))
    && (forall service: nat | service < |r.created| :: ServiceFits(r, service))
    && CloserFits(r)
  }

  lemma EmptyIsSound()
    ensures Inv(EMPTY)
  {
  }

  // ---------------------------------------------------------------- every step keeps it

  lemma GetServiceStep(r: Registry, lifecycleId: Text)
    requires Inv(r)
    ensures Inv(DoGetService(r, lifecycleId))
  {
    var r' := DoGetService(r, lifecycleId);
    if r' != r {
      forall t: nat | InFlight(r', t) ensures PromisedAt(r', t) {
        if t < |r.startups| { assert InFlight(r, t) && PromisedAt(r, t); }
      }
      forall s: nat | s < |r'.created| ensures ServiceFits(r', s) {
        assert ServiceFits(r, s);
      }
      forall id | id in r'.services ensures CachedFits(r', id) {
        assert CachedFits(r, id);
      }
    }
  }

  /** A step of startup t touches nothing that belongs to another lifecycle id. */
  ghost predicate SameElsewhere(r: Registry, r': Registry, t: nat, id: Text) {
    && InFlight(r, t) && r.startups[t].lifecycleId == id
    && |r'.startups| == |r.startups| && r'.startups[t].lifecycleId == id
    && (forall k | 0 <= k < |r.startups| && k != t :: r'.startups[k] == r.startups[k])
    && r'.state == r.state && r'.closer == r.closer
    && |r.created| <= |r'.created|
    && (forall s | 0 <= s < |r.created| && r.created[s].lifecycleId != id :: r'.created[s] == r.created[s])
    && (forall s | 0 <= s < |r'.created| && r'.created[s].lifecycleId != id :: s < |r.created| && r.created[s].lifecycleId != id)
    && (forall other | other != id :: SameEntry(r.services, r'.services, other) && SameEntry(r.startupPromises, r'.startupPromises, other))
    && r'.identities.Keys == r'.services.Keys
  }

  predicate SameEntry(before: map<Text, nat>, after: map<Text, nat>, id: Text) {
    (id in before <==> id in after) && (id in after ==> after[id] == before[id])
  }

  /** What has to hold for the lifecycle id of the step itself. */
  ghost predicate FitsAt(r: Registry, t: nat, id: Text) {
    && t < |r.startups| && r.startups[t].lifecycleId == id
    && (if r.startups[t].Settled? then id !in r.startupPromises else id in r.startupPromises && r.startupPromises[id] == t)
    && StartupFits(r, r.startups[t])
    && (id in r.services ==> CachedFits(r, id))
    && (forall s: nat | s < |r.created| && r.created[s].lifecycleId == id :: ServiceFits(r, s))
  }

  lemma PromisesFitElsewhere(r: Registry, r': Registry, t: nat, id: Text)
    requires Inv(r) && SameElsewhere(r, r', t, id) && FitsAt(r', t, id)
    ensures PromisesFit(r')
  {
    forall other | other in r'.startupPromises
      ensures InFlight(r', r'.startupPromises[other]) && r'.startups[r'.startupPromises[other]].lifecycleId == other
    {
      assert other != id ==> SameEntry(r.startupPromises, r'.startupPromises, other);
    }
    forall k: nat | InFlight(r', k) ensures PromisedAt(r', k) {
      if k != t {
        assert InFlight(r, k) && PromisedAt(r, k) && PromisedAt(r, t);
        assert SameEntry(r.startupPromises, r'.startupPromises, r.startups[k].lifecycleId);
      }
    }
  }

  lemma StartupsFitElsewhere(r: Registry, r': Registry, t: nat, id: Text, k: nat)
    requires Inv(r) && SameElsewhere(r, r', t, id) && FitsAt(r', t, id) && k < |r'.startups|
    ensures StartupFits(r', r'.startups[k])
  {
    if k != t {
      assert StartupFits(r, r.startups[k]);
      if InFlight(r, k) { assert PromisedAt(r, k) && PromisedAt(r, t); }
    }
  }

  lemma ServicesFitElsewhere(r: Registry, r': Registry, t: nat, id: Text, s: nat)
    requires Inv(r) && SameElsewhere(r, r', t, id) && FitsAt(r', t, id) && s < |r'.created|
    ensures ServiceFits(r', s)
  {
    var other := r'.created[s].lifecycleId;
    if other != id {
      assert ServiceFits(r, s);
      assert SameEntry(r.services, r'.services, other) && SameEntry(r.startupPromises, r'.startupPromises, other);
      assert other in r.startupPromises ==> r.startups[r.startupPromises[other]].lifecycleId == other;
    }
  }

  lemma CacheFitsElsewhere(r: Registry, r': Registry, t: nat, id: Text)
    requires Inv(r) && SameElsewhere(r, r', t, id) && FitsAt(r', t, id)
    ensures CacheFits(r')
  {
    forall other | other in r'.services ensures CachedFits(r', other) {
      if other != id {
        assert SameEntry(r.services, r'.services, other) && SameEntry(r.startupPromises, r'.startupPromises, other);
        assert CachedFits(r, other);
        assert other in r.startupPromises ==> r.startups[r.startupPromises[other]].lifecycleId == other;
      }
    }
  }

  /** A step that is sound for its own lifecycle id is sound. */
  lemma StepIsLocal(r: Registry, r': Registry, t: nat, id: Text)
    requires Inv(r) && SameElsewhere(r, r', t, id) && FitsAt(r', t, id)
    ensures Inv(r')
  {
    PromisesFitElsewhere(r, r', t, id);
    CacheFitsElsewhere(r, r', t, id);
    forall k | 0 <= k < |r'.startups| ensures StartupFits(r', r'.startups[k]) {
      StartupsFitElsewhere(r, r', t, id, k);
    }
    forall s: nat | s < |r'.created| ensures ServiceFits(r', s) {
      ServicesFitElsewhere(r, r', t, id, s);
    }
    assert PromisedAt(r, t);
    forall other | other in r'.startupPromises && r.closer.AwaitingStartups? ensures r'.startupPromises[other] in r.closer.waiting {
      assert other != id ==> SameEntry(r.startupPromises, r'.startupPromises, other);
    }
  }

  // ---------------------------------------------------------------- the segments

  /** The services of the id of a startup in flight: dead, held by it, or cached. */
  lemma OwnServices(r: Registry, t: nat, s: nat)
    requires Inv(r) && InFlight(r, t) && s < |r.created| && r.created[s].lifecycleId == r.startups[t].lifecycleId
    ensures !r.closer.ClosingServices? && !r.closer.CloseSettled?
    ensures r.created[s].failures <= r.created[s].calls <= r.created[s].failures + 1
    ensures Live(r.created[s]) ==>
      Holds(r.startups[t], s) || (r.startups[t].Queued? && Cached(r, r.startups[t].lifecycleId, s))
    ensures r.startups[t].lifecycleId in r.services ==> r.startups[t].Queued?
  {
    assert PromisedAt(r, t) && ServiceFits(r, s);
    if r.startups[t].lifecycleId in r.services { assert CachedFits(r, r.startups[t].lifecycleId); }
  }

  predicate Cached(r: Registry, id: Text, s: nat) {
    id in r.services && r.services[id] == s
  }

  lemma OwnEntries(r: Registry, t: nat)
    requires Inv(r) && InFlight(r, t)
    ensures PromisedAt(r, t) && StartupFits(r, r.startups[t])
    ensures r.startups[t].lifecycleId in r.services ==> CachedFits(r, r.startups[t].lifecycleId) && r.startups[t].Queued?
  {
    assert PromisedAt(r, t);
    if r.startups[t].lifecycleId in r.services { assert CachedFits(r, r.startups[t].lifecycleId); }
  }

  lemma BeginStep(r: Registry, t: nat, identity: nat, creates: bool)
    requires Inv(r) && t < |r.startups| && r.startups[t].Queued? && r.startups[t].lifecycleId !in r.services
    ensures Inv(Begin(r, t, identity, creates))
  {
    var id, r' := r.startups[t].lifecycleId, Begin(r, t, identity, creates);
    OwnEntries(r, t);
    forall s: nat | s < |r'.created| && r'.created[s].lifecycleId == id ensures ServiceFits(r', s) {
      if s < |r.created| { OwnServices(r, t, s); }
    }
    StepIsLocal(r, r', t, id);
  }

  lemma QueuedFinishStep(r: Registry, t: nat, result: Option<nat>)
    requires Inv(r) && t < |r.startups| && r.startups[t].Queued?
    ensures Inv(Finish(r, t, result))
  {
    var id, r' := r.startups[t].lifecycleId, Finish(r, t, result);
    OwnEntries(r, t);
    forall s: nat | s < |r'.created| && r'.created[s].lifecycleId == id ensures ServiceFits(r', s) {
      OwnServices(r, t, s);
    }
    StepIsLocal(r, r', t, id);
  }

  lemma RunQueuedStep(r: Registry, t: nat, snapshot: Option<nat>, creates: bool)
    requires Inv(r) && Enabled(r, RunQueued(t, snapshot, creates))
    ensures Inv(DoRunQueued(r, t, snapshot, creates))
  {
    var id, r' := r.startups[t].lifecycleId, DoRunQueued(r, t, snapshot, creates);
    OwnEntries(r, t);
    if snapshot.None? {
      QueuedFinishStep(r, t, None);
    } else if id !in r.services {
      BeginStep(r, t, snapshot.value, creates);
    } else if r.identities[id] == snapshot.value {
      QueuedFinishStep(r, t, Some(r.services[id]));
    } else {
      forall s: nat | s < |r'.created| && r'.created[s].lifecycleId == id ensures ServiceFits(r', s) {
        OwnServices(r, t, s);
      }
      StepIsLocal(r, r', t, id);
    }
  }

  lemma OldClosedStep(r: Registry, t: nat, ok: bool, creates: bool)
    requires Inv(r) && Enabled(r, OldClosed(t, ok, creates))
    ensures Inv(DoOldClosed(r, t, ok, creates))
  {
    var id, r' := r.startups[t].lifecycleId, DoOldClosed(r, t, ok, creates);
    OwnEntries(r, t);
    forall s: nat | s < |r'.created| && r'.created[s].lifecycleId == id ensures ServiceFits(r', s) {
      if s < |r.created| { OwnServices(r, t, s); }
    }
    StepIsLocal(r, r', t, id);
  }

  lemma StartedThenCloses(r: Registry, t: nat, next: Startup)
    requires Inv(r) && Enabled(r, Started(t, true, None))
    requires next == CleaningUp(r.startups[t].lifecycleId, r.startups[t].service)
          || next == ClosingLate(r.startups[t].lifecycleId, r.startups[t].service)
    ensures Inv(Became(r, t, next, r.startups[t].service, CallClose(r.created[r.startups[t].service])))
  {
    var id, service := r.startups[t].lifecycleId, r.startups[t].service;
    var r' := Became(r, t, next, service, CallClose(r.created[service]));
    OwnEntries(r, t);
    forall s: nat | s < |r'.created| && r'.created[s].lifecycleId == id ensures ServiceFits(r', s) {
      OwnServices(r, t, s);
    }
    StepIsLocal(r, r', t, id);
  }

  lemma StartedStep(r: Registry, t: nat, ok: bool, snapshot: Option<nat>)
    requires Inv(r) && Enabled(r, Started(t, ok, snapshot))
    ensures Inv(DoStarted(r, t, ok, snapshot))
  {
    var u, r' := r.startups[t], DoStarted(r, t, ok, snapshot);
    if !ok || r.state != Open || snapshot != Some(u.identity) {
      StartedThenCloses(
        r, t, if ok && r.state != Open then ClosingLate(u.lifecycleId, u.service) else CleaningUp(u.lifecycleId, u.service));
    } else {
      OwnEntries(r, t);
      forall s: nat | s < |r'.created| && r'.created[s].lifecycleId == u.lifecycleId ensures ServiceFits(r', s) {
        OwnServices(r, t, s);
      }
      StepIsLocal(r, r', t, u.lifecycleId);
    }
  }

  lemma LateClosedStep(r: Registry, t: nat, ok: bool)
    requires Inv(r) && Enabled(r, LateClosed(t, ok))
    ensures Inv(DoLateClosed(r, t, ok))
  {
    var id, r' := r.startups[t].lifecycleId, DoLateClosed(r, t, ok);
    OwnEntries(r, t);
    forall s: nat | s < |r'.created| && r'.created[s].lifecycleId == id ensures ServiceFits(r', s) {
      OwnServices(r, t, s);
    }
    StepIsLocal(r, r', t, id);
  }

  lemma CleanedUpStep(r: Registry, t: nat, ok: bool)
    requires Inv(r) && Enabled(r, CleanedUp(t, ok))
    ensures Inv(DoCleanedUp(r, t, ok))
  {
    var id, r' := r.startups[t].lifecycleId, DoCleanedUp(r, t, ok);
    OwnEntries(r, t);
    forall s: nat | s < |r'.created| && r'.created[s].lifecycleId == id ensures ServiceFits(r', s) {
      OwnServices(r, t, s);
    }
    StepIsLocal(r, r', t, id);
  }

  lemma CloseStep(r: Registry)
    requires Inv(r)
    ensures Inv(DoClose(r))
  {
    var r' := DoClose(r);
    forall id | id in r.startupPromises && r.closer.NotClosing? ensures r'.startupPromises[id] in r.startupPromises.Values {
    }
    forall s: nat | s < |r.created| ensures ServiceFits(r', s) {
      assert ServiceFits(r, s);
    }
    forall id | id in r.services ensures CachedFits(r', id) {
      assert CachedFits(r, id);
    }
    forall t: nat | InFlight(r', t) ensures PromisedAt(r', t) {
      assert InFlight(r, t) && PromisedAt(r, t);
    }
  }

  lemma NoPromiseNoStartup(r: Registry)
    requires PromisesFit(r) && r.startupPromises == map[]
    ensures forall t: nat :: !InFlight(r, t)
  {
    forall t: nat ensures !InFlight(r, t) {
      assert InFlight(r, t) ==> PromisedAt(r, t);
    }
  }

  lemma AwaitedIsInFlight(r: Registry, waiting: set<nat>, id: Text)
    requires PromisesFit(r) && forall other | other in r.startupPromises :: r.startupPromises[other] in waiting
    ensures id in r.startupPromises ==> exists t | t in waiting :: InFlight(r, t)
  {
    assert id in r.startupPromises ==> r.startupPromises[id] in waiting && InFlight(r, r.startupPromises[id]);
  }

  lemma NoStartupLeft(r: Registry)
    requires Inv(r) && Enabled(r, StartupsSettled)
    ensures r.startupPromises == map[] && forall t: nat :: !InFlight(r, t)
  {
    forall id ensures id !in r.startupPromises {
      AwaitedIsInFlight(r, r.closer.waiting, id);
    }
    assert r.startupPromises == map[];
    NoPromiseNoStartup(r);
  }

  lemma CachedUnder(r: Registry, s: nat) returns (id: Text)
    requires Inv(r) && s in r.services.Values
    ensures id in r.services && r.services[id] == s && s < |r.created|
    ensures r.created[s].lifecycleId == id && Untouched(r.created[s])
  {
    id :| id in r.services && r.services[id] == s;
    assert CachedFits(r, id);
  }

  lemma ServicesGoToCloser(r: Registry)
    requires Inv(r) && Enabled(r, StartupsSettled)
    ensures forall s: nat | s < |r.created| :: ServiceFits(DoStartupsSettled(r), s)
  {
    var r' := DoStartupsSettled(r);
    NoStartupLeft(r);
    forall s: nat | s < |r.created| ensures ServiceFits(r', s) {
      assert ServiceFits(r, s);
      if s in r.services.Values { var id := CachedUnder(r, s); }
    }
  }

  lemma CloserTakesAll(r: Registry)
    requires Inv(r) && Enabled(r, StartupsSettled)
    ensures CloserFits(DoStartupsSettled(r))
  {
    var r' := DoStartupsSettled(r);
    NoStartupLeft(r);
    forall s | s in r.services.Values ensures s < |r'.created| && ClosesFirst(r', r'.created[s].lifecycleId, s) {
      var id := CachedUnder(r, s);
    }
    forall a, b | a in r.services.Values && b in r.services.Values && r'.created[a].lifecycleId == r'.created[b].lifecycleId
      ensures a == b
    {
      var id := CachedUnder(r, a);
      var id' := CachedUnder(r, b);
    }
  }

  lemma StartupsSettledStep(r: Registry)
    requires Inv(r) && Enabled(r, StartupsSettled)
    ensures Inv(DoStartupsSettled(r))
  {
    var r' := DoStartupsSettled(r);
    NoStartupLeft(r);
    ServicesGoToCloser(r);
    CloserTakesAll(r);
    forall t | 0 <= t < |r'.startups| ensures StartupFits(r', r'.startups[t]) {
      assert !InFlight(r, t);
    }
    assert forall t: nat :: InFlight(r', t) == InFlight(r, t);
  }

  lemma ServiceClosedStep(r: Registry, service: nat, ok: bool)
    requires Inv(r) && Enabled(r, ServiceClosed(service, ok))
    ensures Inv(Do(r, ServiceClosed(service, ok)))
  {
    var r' := Do(r, ServiceClosed(service, ok));
    assert ClosesFirst(r, r.created[service].lifecycleId, service);
    NoPromiseNoStartup(r);
    forall t | 0 <= t < |r'.startups| ensures StartupFits(r', r'.startups[t]) {
      assert !InFlight(r, t);
    }
    forall s: nat | s < |r'.created| ensures ServiceFits(r', s) {
      assert ServiceFits(r, s);
    }
    forall s | s in r'.closer.left ensures s < |r'.created| && ClosesFirst(r', r'.created[s].lifecycleId, s) {
      assert ClosesFirst(r, r.created[s].lifecycleId, s);
    }
    assert forall t: nat :: InFlight(r', t) == InFlight(r, t);
  }

  lemma CloseEndsStep(r: Registry)
    requires Inv(r) && Enabled(r, CloseEnds)
    ensures Inv(Do(r, CloseEnds))
  {
    var r' := Do(r, CloseEnds);
    NoPromiseNoStartup(r);
    forall t | 0 <= t < |r'.startups| ensures StartupFits(r', r'.startups[t]) {
      assert !InFlight(r, t);
    }
    forall s: nat | s < |r'.created| ensures ServiceFits(r', s) {
      assert ServiceFits(r, s);
    }
    assert forall t: nat :: InFlight(r', t) == InFlight(r, t);
  }

  lemma StepKeepsInv(r: Registry, step: Step)
    requires Inv(r) && Enabled(r, step)
    ensures Inv(Do(r, step))
  {
    match step
    case GetService(lifecycleId) => GetServiceStep(r, lifecycleId);
    case RunQueued(t, snapshot, creates) => RunQueuedStep(r, t, snapshot, creates);
    case OldClosed(t, ok, creates) => OldClosedStep(r, t, ok, creates);
    case Started(t, ok, snapshot) => StartedStep(r, t, ok, snapshot);
    case LateClosed(t, ok) => LateClosedStep(r, t, ok);
    case CleanedUp(t, ok) => CleanedUpStep(r, t, ok);
    case Close => CloseStep(r);
    case StartupsSettled => StartupsSettledStep(r);
    case ServiceClosed(service, ok) => ServiceClosedStep(r, service, ok);
    case CloseEnds => CloseEndsStep(r);
  }

  // ---------------------------------------------------------------- every interleaving

  ghost predicate IsRun(states: seq<Registry>, steps: seq<Step>) {
    && |states| == |steps| + 1 && states[0] == EMPTY
    && forall k | 0 <= k < |steps| :: Follows(states, steps, k)
  }

  ghost predicate Follows(states: seq<Registry>, steps: seq<Step>, k: nat)
    requires k < |steps| && |states| == |steps| + 1
  {
    Enabled(states[k], steps[k]) && states[k + 1] == Do(states[k], steps[k])
  }

  lemma {:induction false} RunKeepsInv(states: seq<Registry>, steps: seq<Step>, k: nat)
    requires IsRun(states, steps) && k < |states|
    ensures Inv(states[k])
  {
    if k == 0 {
      EmptyIsSound();
    } else {
      RunKeepsInv(states, steps, k - 1);
      assert Follows(states, steps, k - 1);
      StepKeepsInv(states[k - 1], steps[k - 1]);
    }
  }

  /** At every moment at most one service per lifecycle id has not answered its last close. */
  lemma OneServicePerLifecycle(states: seq<Registry>, steps: seq<Step>, k: nat, a: nat, b: nat)
    requires IsRun(states, steps) && k < |states|
    requires a < |states[k].created| && b < |states[k].created|
    requires Live(states[k].created[a]) && Live(states[k].created[b])
    requires states[k].created[a].lifecycleId == states[k].created[b].lifecycleId
    ensures a == b
  {
    RunKeepsInv(states, steps, k);
    OwnersAreUnique(states[k], a, b);
  }

  lemma OwnersAreUnique(r: Registry, a: nat, b: nat)
    requires Inv(r) && a < |r.created| && b < |r.created| && Live(r.created[a]) && Live(r.created[b])
    requires r.created[a].lifecycleId == r.created[b].lifecycleId
    ensures a == b
  {
    var id := r.created[a].lifecycleId;
    assert ServiceFits(r, a) && ServiceFits(r, b);
    assert id in r.services ==> CachedFits(r, id);
  }

  // ---------------------------------------------------------------- how often a service is closed

  /** The one branch that closes a service again: its close after close() has begun fails. */
  predicate Repeats(r: Registry, step: Step, s: nat) {
    && step.LateClosed? && !step.ok
    && step.t < |r.startups| && r.startups[step.t].ClosingLate? && r.startups[step.t].service == s
  }

  function Calls(r: Registry, s: nat): nat {
    if s < |r.created| then r.created[s].calls else 0
  }

  /** A count that a step leaves alone or raises from none to one. */
  predicate ClosesAtMostFirst(r: Registry, r': Registry, s: nat) {
    Calls(r', s) == Calls(r, s) || (Calls(r, s) == 0 && Calls(r', s) == 1)
  }

  lemma QueuedCounts(r: Registry, t: nat, snapshot: Option<nat>, creates: bool, s: nat)
    requires Inv(r) && Enabled(r, RunQueued(t, snapshot, creates))
    ensures ClosesAtMostFirst(r, DoRunQueued(r, t, snapshot, creates), s)
  {
    OwnEntries(r, t);
  }

  lemma StartedCounts(r: Registry, t: nat, ok: bool, snapshot: Option<nat>, s: nat)
    requires Inv(r) && Enabled(r, Started(t, ok, snapshot))
    ensures ClosesAtMostFirst(r, DoStarted(r, t, ok, snapshot), s)
  {
    OwnEntries(r, t);
  }

  lemma LateClosedCounts(r: Registry, t: nat, ok: bool, s: nat)
    requires Inv(r) && Enabled(r, LateClosed(t, ok))
    ensures
      if Repeats(r, LateClosed(t, ok), s) then Calls(r, s) == 1 && Calls(DoLateClosed(r, t, ok), s) == 2
      else ClosesAtMostFirst(r, DoLateClosed(r, t, ok), s)
  {
    OwnEntries(r, t);
  }

  lemma CloseCounts(r: Registry, s: nat)
    requires Inv(r) && Enabled(r, StartupsSettled)
    ensures ClosesAtMostFirst(r, DoStartupsSettled(r), s)
  {
    if s in r.services.Values { var id := CachedUnder(r, s); }
  }

  /** A step closes a service for the first time or leaves its count, unless it repeats a first call. */
  lemma StepCounts(r: Registry, step: Step, s: nat)
    requires Inv(r) && Enabled(r, step)
    ensures
      if Repeats(r, step, s) then Calls(r, s) == 1 && Calls(Do(r, step), s) == 2
      else ClosesAtMostFirst(r, Do(r, step), s)
  {
    match step
    case RunQueued(t, snapshot, creates) => QueuedCounts(r, t, snapshot, creates, s);
    case Started(t, ok, snapshot) => StartedCounts(r, t, ok, snapshot, s);
    case LateClosed(t, ok) => LateClosedCounts(r, t, ok, s);
    case StartupsSettled => CloseCounts(r, s);
    case _ =>
  }

  ghost predicate RepeatedBefore(states: seq<Registry>, steps: seq<Step>, k: nat, s: nat)
    requires k <= |steps| <= |states|
  {
    exists j | 0 <= j < k :: Repeats(states[j], steps[j], s)
  }

  /** In every run: no service is closed more than twice, and twice exactly after a repeating step. */
  lemma {:induction false} ClosedTwiceExactlyWhenRepeated(states: seq<Registry>, steps: seq<Step>, k: nat, s: nat)
    requires IsRun(states, steps) && k < |states|
    ensures Calls(states[k], s) <= 2
    ensures Calls(states[k], s) == 2 <==> RepeatedBefore(states, steps, k, s)
  {
    if k > 0 {
      var last := k - 1;
      ClosedTwiceExactlyWhenRepeated(states, steps, last, s);
      RunKeepsInv(states, steps, last);
      assert Follows(states, steps, last);
      StepCounts(states[last], steps[last], s);
      assert RepeatedBefore(states, steps, k, s) <==>
        RepeatedBefore(states, steps, last, s) || Repeats(states[last], steps[last], s);
    }
  }

  /**
   Once close() has settled every service ever created has been asked to close and has
   answered, exactly once unless its late close failed, and then exactly twice. Nothing
   is starting or cached, and the registry stays closed: no getService, from then on,
   starts or resolves anything.
   */
  lemma CloseClosesEverything(states: seq<Registry>, steps: seq<Step>, k: nat)
    requires IsRun(states, steps) && k < |states| && states[k].closer == CloseSettled
    ensures forall s: nat | s < |states[k].created| ::
      && !states[k].created[s].pending
      && states[k].created[s].calls == if RepeatedBefore(states, steps, k, s) then 2 else 1
    ensures states[k].state == Closed && states[k].services == map[] && forall t: nat :: !InFlight(states[k], t)
    ensures k < |steps| ==> states[k + 1] == states[k]
  {
    var r := states[k];
    RunKeepsInv(states, steps, k);
    forall s: nat | s < |r.created|
      ensures !r.created[s].pending && r.created[s].calls == if RepeatedBefore(states, steps, k, s) then 2 else 1
    {
      assert ServiceFits(r, s);
      ClosedTwiceExactlyWhenRepeated(states, steps, k, s);
    }
    NoPromiseNoStartup(r);
    if k < |steps| {
      assert Follows(states, steps, k);
      ClosedStaysClosed(r, steps[k]);
    }
  }

  /** A run in which close() overtakes a startup whose late close then fails. */
  function OvertakenStep(id: Text, k: nat): Step {
    if k == 0 then GetService(id)
    else if k == 1 then RunQueued(0, Some(7), true)
    else if k == 2 then Close
    else if k == 3 then Started(0, true, None)
    else if k == 4 then LateClosed(0, false)
    else if k == 5 then CleanedUp(0, true)
    else if k == 6 then StartupsSettled
    else CloseEnds
  }

  function Overtaken(id: Text, k: nat): Registry {
    if k == 0 then EMPTY
    else if k == 1 then Registry(Open, map[], map[], map[id := 0], [Queued(id)], [], NotClosing)
    else if k == 2 then Registry(Open, map[], map[], map[id := 0], [Starting(id, 7, 0)], [Service(id, 0, false, 0)], NotClosing)
    else if k == 3 then Overtaking(id, Starting(id, 7, 0), Service(id, 0, false, 0))
    else if k == 4 then Overtaking(id, ClosingLate(id, 0), Service(id, 1, true, 0))
    else if k == 5 then Overtaking(id, CleaningUp(id, 0), Service(id, 2, true, 1))
    else if k == 6 then
      Registry(Closing, map[], map[], map[], [Settled(id, None)], [Service(id, 2, false, 1)], AwaitingStartups({0}))
    else if k == 7 then
      Registry(Closing, map[], map[], map[], [Settled(id, None)], [Service(id, 2, false, 1)], ClosingServices({}))
    else Registry(Closed, map[], map[], map[], [Settled(id, None)], [Service(id, 2, false, 1)], CloseSettled)
  }

  function Overtaking(id: Text, u: Startup, s: Service): Registry {
    Registry(Closing, map[], map[], map[id := 0], [u], [s], AwaitingStartups({0}))
  }

  lemma OvertakenIsQueued(id: Text)
    requires NormalizeLifecycleId(id) == Some(id)
    ensures Do(EMPTY, GetService(id)) == Overtaken(id, 1)
  {
  }

  lemma OvertakenStarts(id: Text, k: nat)
    requires 1 <= k < 4
    ensures Enabled(Overtaken(id, k), OvertakenStep(id, k))
    ensures Do(Overtaken(id, k), OvertakenStep(id, k)) == Overtaken(id, k + 1)
  {
    var one: map<Text, nat> := map[id := 0];
    assert one.Values == {0} by {
      assert one[id] == 0;
    }
  }

  lemma OvertakenEnds(id: Text, k: nat)
    requires 4 <= k < 8
    ensures Enabled(Overtaken(id, k), OvertakenStep(id, k))
    ensures Do(Overtaken(id, k), OvertakenStep(id, k)) == Overtaken(id, k + 1)
  {
    var none: map<Text, nat> := map[];
    assert none.Values == {} && map[id := 0 as nat] - {id} == none;
    assert CallCloseOf([Service(id, 2, false, 1)], {}) == [Service(id, 2, false, 1)];
  }

  /** Such a run exists: the close that fails after close() has begun is repeated. */
  lemma LateCloseMayRepeat(id: Text) returns (states: seq<Registry>, steps: seq<Step>)
    requires NormalizeLifecycleId(id) == Some(id)
    ensures IsRun(states, steps) && states[|steps|].closer == CloseSettled
    ensures states[|steps|].created == [Service(id, 2, false, 1)]
  {
    states := seq(9, k requires 0 <= k < 9 => Overtaken(id, k));
    steps := seq(8, k requires 0 <= k < 8 => OvertakenStep(id, k));
    forall k | 0 <= k < 8 ensures Follows(states, steps, k) {
      if k == 0 { OvertakenIsQueued(id); } else if k < 4 { OvertakenStarts(id, k); } else { OvertakenEnds(id, k); }
    }
  }

  lemma ClosedStaysClosed(r: Registry, step: Step)
    requires r.closer == CloseSettled && r.state == Closed && Enabled(r, step) && forall t: nat :: !InFlight(r, t)
    ensures Do(r, step) == r
  {
    match step
    case RunQueued(t, _, _) => assert InFlight(r, t);
    case OldClosed(t, _, _) => assert InFlight(r, t);
    case Started(t, _, _) => assert InFlight(r, t);
    case LateClosed(t, _) => assert InFlight(r, t);
    case CleanedUp(t, _) => assert InFlight(r, t);
    case _ =>
  }

  /** The service s is handed out for startup t after snapshotIdentity answered with that identity. */
  predicate Serves(r: Registry, t: nat, s: nat, snapshot: Option<nat>)
    requires t < |r.startups|
  {
    var id := r.startups[t].lifecycleId;
    && s < |r.created| && r.created[s].lifecycleId == id && Untouched(r.created[s])
    && Cached(r, id, s) && id in r.identities && snapshot == Some(r.identities[id])
  }

  predicate Resolves(r: Registry, t: nat, s: nat)
    requires t < |r.startups|
  {
    r.startups[t].Settled? && r.startups[t].result == Some(s)
  }

  lemma QueuedServes(r: Registry, t: nat, snapshot: Option<nat>, creates: bool, s: nat)
    requires Inv(r) && Enabled(r, RunQueued(t, snapshot, creates)) && Resolves(DoRunQueued(r, t, snapshot, creates), t, s)
    ensures Serves(DoRunQueued(r, t, snapshot, creates), t, s, snapshot)
  {
    OwnEntries(r, t);
  }

  lemma StartedServes(r: Registry, t: nat, ok: bool, snapshot: Option<nat>, s: nat)
    requires Inv(r) && Enabled(r, Started(t, ok, snapshot)) && Resolves(DoStarted(r, t, ok, snapshot), t, s)
    ensures Serves(DoStarted(r, t, ok, snapshot), t, s, snapshot)
  {
    OwnEntries(r, t);
  }

  function SnapshotRead(step: Step): Option<nat> {
    match step
    case RunQueued(_, snapshot, _) => snapshot
    case Started(_, _, snapshot) => snapshot
    case _ => None
  }

  /**
   What getService hands out: a service of that id that nobody has asked to close, now
   in the cache under the snapshot identity the step has just read.
   */
  lemma ServesCurrentSnapshot(r: Registry, step: Step, t: nat, s: nat)
    requires Inv(r) && Enabled(r, step) && InFlight(r, t)
    requires t < |Do(r, step).startups| && Resolves(Do(r, step), t, s)
    ensures Serves(Do(r, step), t, s, SnapshotRead(step))
  {
    match step
    case RunQueued(_, snapshot, creates) => QueuedServes(r, t, snapshot, creates, s);
    case Started(_, ok, snapshot) => StartedServes(r, t, ok, snapshot, s);
    case _ =>
  }
}
