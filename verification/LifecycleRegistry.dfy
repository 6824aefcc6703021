/** The registry object. Each method is one segment of getService or close between awaits. */
module LifecycleRegistry {
  import opened Wrappers
  import opened Texts
  import opened ServiceRegistry

  class LifecycleStakingLedgerServiceRegistry {
    var services: map<Text, nat>
    var startupPromises: map<Text, nat>
    var state: RegistryState
    var closer: Closer
    var identities: map<Text, nat>
    var startups: seq<Startup>
    var created: seq<Service>

    ghost function At(): Registry
      reads this
    {
      Registry(state, services, identities, startupPromises, startups, created, closer)
    }

    constructor ()
      ensures At() == EMPTY && Inv(At())
    {
      services, startupPromises, identities := map[], map[], map[];
      state, closer := Open, NotClosing;
      startups, created := [], [];
      new;
      EmptyIsSound();
    }

    /** getService up to its first await: the startup the caller waits for, if any. */
    method GetService(lifecycleId: Text) returns (promise: Option<nat>)
      requires Inv(At())
      modifies this
      ensures At() == DoGetService(old(At()), lifecycleId)
      ensures Inv(At())
      ensures promise.Some? <==> old(state) == Open && NormalizeLifecycleId(lifecycleId).Some?
      ensures promise.Some? ==>
        InFlight(At(), promise.value) && Some(startups[promise.value].lifecycleId) == NormalizeLifecycleId(lifecycleId)
    {
      GetServiceStep(At(), lifecycleId);
      var id := NormalizeLifecycleId(lifecycleId);
      if state != Open || id.None? {
        return None;
      }
      if id.value in startupPromises {
        return Some(startupPromises[id.value]);
      }
      startups := startups + [Queued(id.value)];
      startupPromises := startupPromises[id.value := |startups| - 1];
      promise := Some(|startups| - 1);
    }

    /** The finally block. */
    method FinishStartup(t: nat, result: Option<nat>)
      requires t < |startups|
      modifies this`startups, this`startupPromises
      ensures At() == Finish(old(At()), t, result)
    {
      var id := startups[t].lifecycleId;
      startups := startups[t := Settled(id, result)];
      if id in startupPromises && startupPromises[id] == t {
        startupPromises := startupPromises - {id};
      }
    }

    /** createService and the call of start(). */
    method BeginStartup(t: nat, identity: nat, creates: bool)
      requires t < |startups|
      modifies this`startups, this`startupPromises, this`created
      ensures At() == Begin(old(At()), t, identity, creates)
    {
      if creates {
        startups := startups[t := Starting(startups[t].lifecycleId, identity, |created|)];
        created := created + [Service(startups[t].lifecycleId, 0, false, 0)];
      } else {
        FinishStartup(t, None);
      }
    }

    /** The startup after its first await: serve the cached service, retire it, or create one. */
    method RunStartup(t: nat, snapshot: Option<nat>, creates: bool)
      requires Inv(At()) && Enabled(At(), RunQueued(t, snapshot, creates))
      modifies this
      ensures At() == DoRunQueued(old(At()), t, snapshot, creates)
      ensures Inv(At())
    {
      RunQueuedStep(At(), t, snapshot, creates);
      OwnEntries(At(), t);
      var id := startups[t].lifecycleId;
      if snapshot.None? {
        FinishStartup(t, None);
        return;
      }
      if id in services && identities[id] == snapshot.value {
        FinishStartup(t, Some(services[id]));
        return;
      }
      if id in services {
        var existing := services[id];
        services := services - {id};
        identities := identities - {id};
        created := created[existing := CallClose(created[existing])];
        startups := startups[t := Startup.ClosingOld(id, snapshot.value, existing)];
        return;
      }
      BeginStartup(t, snapshot.value, creates);
    }

    /** After the superseded service has closed, or failed to. */
    method AfterOldClosed(t: nat, ok: bool, creates: bool)
      requires Inv(At()) && Enabled(At(), OldClosed(t, ok, creates))
      modifies this
      ensures At() == DoOldClosed(old(At()), t, ok, creates)
      ensures Inv(At())
    {
      OldClosedStep(At(), t, ok, creates);
      var u := startups[t];
      assert startups[t := u] == startups;
      created := created[u.service := EndClose(created[u.service], ok)];
      if ok {
        BeginStartup(t, u.identity, creates);
      } else {
        FinishStartup(t, None);
      }
    }

    /** After start() has settled: cache the service, or close it again. */
    method AfterStart(t: nat, ok: bool, snapshot: Option<nat>)
      requires Inv(At()) && Enabled(At(), Started(t, ok, snapshot))
      modifies this
      ensures At() == DoStarted(old(At()), t, ok, snapshot)
      ensures Inv(At())
    {
      StartedStep(At(), t, ok, snapshot);
      var u := startups[t];
      if ok && state == Open && snapshot == Some(u.identity) {
        identities := identities[u.lifecycleId := u.identity];
        services := services[u.lifecycleId := u.service];
        FinishStartup(t, Some(u.service));
        return;
      }
      created := created[u.service := CallClose(created[u.service])];
      if ok && state != Open {
        startups := startups[t := Startup.ClosingLate(u.lifecycleId, u.service)];
      } else {
        startups := startups[t := CleaningUp(u.lifecycleId, u.service)];
      }
    }

    /** After the close of a service that started too late: a failed close is tried once more. */
    method AfterLateClose(t: nat, ok: bool)
      requires Inv(At()) && Enabled(At(), LateClosed(t, ok))
      modifies this
      ensures At() == DoLateClosed(old(At()), t, ok)
      ensures Inv(At())
    {
      LateClosedStep(At(), t, ok);
      var u := startups[t];
      assert startups[t := u] == startups;
      created := created[u.service := EndClose(created[u.service], ok)];
      if ok {
        FinishStartup(t, None);
      } else {
        created := created[u.service := CallClose(created[u.service])];
        startups := startups[t := CleaningUp(u.lifecycleId, u.service)];
      }
    }

    /** After the clean-up close: the startup fails either way. */
    method AfterCleanUp(t: nat, ok: bool)
      requires Inv(At()) && Enabled(At(), CleanedUp(t, ok))
      modifies this
      ensures At() == DoCleanedUp(old(At()), t, ok)
      ensures Inv(At())
    {
      CleanedUpStep(At(), t, ok);
      var u := startups[t];
      assert startups[t := u] == startups;
      created := created[u.service := EndClose(created[u.service], ok)];
      FinishStartup(t, None);
    }

    /** close() up to its first await: later calls join the first. */
    method CloseRegistry()
      requires Inv(At())
      modifies this
      ensures At() == DoClose(old(At()))
      ensures Inv(At())
    {
      CloseStep(At());
      if closer.NotClosing? {
        state := RegistryState.Closing;
        closer := AwaitingStartups(startupPromises.Values);
      }
    }

    /** close() once every startup has settled: all cached services are asked to close at once. */
    method CloseServices()
      requires Inv(At()) && Enabled(At(), StartupsSettled)
      modifies this
      ensures At() == DoStartupsSettled(old(At()))
      ensures Inv(At())
    {
      StartupsSettledStep(At());
      var servicesToClose := services.Values;
      services := map[];
      identities := map[];
      created := CallCloseOf(created, servicesToClose);
      closer := Closer.ClosingServices(servicesToClose);
    }

    /** One of those closes has settled. */
    method AfterServiceClose(service: nat, ok: bool)
      requires Inv(At()) && Enabled(At(), ServiceClosed(service, ok))
      modifies this
      ensures At() == Do(old(At()), ServiceClosed(service, ok))
      ensures Inv(At())
    {
      ServiceClosedStep(At(), service, ok);
      created := created[service := EndClose(created[service], ok)];
      closer := Closer.ClosingServices(closer.left - {service});
    }

    /** close() settles. */
    method EndClosing()
      requires Inv(At()) && Enabled(At(), CloseEnds)
      modifies this
      ensures At() == Do(old(At()), CloseEnds)
      ensures Inv(At())
    {
      CloseEndsStep(At());
      startupPromises := map[];
      state := Closed;
      closer := CloseSettled;
    }
  }
}
