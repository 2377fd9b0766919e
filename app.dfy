/**
 * The dashboard's state-changing request handlers, acting on the database.
 * Form fields arrive as optional values (a missing or empty field is
 * `None` for the engineer id, and `None` or `""` for text fields).
 */
module App {
  import opened Wrappers
  import opened Ledger
  import Text
  import Scheduler
  import opened Triage

  /** POST /respond-incident/<id>. */
  method RespondIncident(store: Store, incidentId: int, engineerId: Option<int>, priority: Option<string>,
                         incNumber: Option<string>, incLink: Option<string>, now: Time)
    modifies store
    ensures store.incidents == Respond(old(store.incidents), incidentId, engineerId, priority, incNumber, incLink, now)
    ensures store.nextIncidentId == old(store.nextIncidentId)
    ensures store.engineers == old(store.engineers) && store.lastRefresh == old(store.lastRefresh)
  {
    if engineerId.Some? && Text.Present(priority) {
      store.incidents := Respond(store.incidents, incidentId, engineerId, priority, incNumber, incLink, now);
    }
  }

  /** POST /update-incident-priority/<id>. */
  method UpdateIncidentPriority(store: Store, incidentId: int, priority: Option<string>)
    modifies store
    ensures store.incidents == SetPriority(old(store.incidents), incidentId, priority)
    ensures store.nextIncidentId == old(store.nextIncidentId)
    ensures store.engineers == old(store.engineers) && store.lastRefresh == old(store.lastRefresh)
  {
    if Text.Present(priority) {
      store.incidents := SetPriority(store.incidents, incidentId, priority);
    }
  }

  /** POST /update-inc-link/<id>. */
  method UpdateIncLink(store: Store, incidentId: int, incNumber: Option<string>, incLink: Option<string>)
    modifies store
    ensures store.incidents == SetIncLink(old(store.incidents), incidentId, incNumber, incLink)
    ensures store.nextIncidentId == old(store.nextIncidentId)
    ensures store.engineers == old(store.engineers) && store.lastRefresh == old(store.lastRefresh)
  {
    if Text.Present(incNumber) || Text.Present(incLink) {
      store.incidents := SetIncLink(store.incidents, incidentId, incNumber, incLink);
    }
  }

  /** POST /resolve-incident/<id>. */
  method ResolveIncident(store: Store, incidentId: int, now: Time)
    modifies store
    ensures store.incidents == ManualResolve(old(store.incidents), incidentId, now)
    ensures store.nextIncidentId == old(store.nextIncidentId)
    ensures store.engineers == old(store.engineers) && store.lastRefresh == old(store.lastRefresh)
  {
    store.incidents := ManualResolve(store.incidents, incidentId, now);
  }

  /** POST /delete-engineer/<id>: clear the references, then delete the row. */
  method DeleteEngineer(store: Store, engineerId: int)
    modifies store
    ensures store.incidents == Unassign(old(store.incidents), engineerId)
    ensures store.engineers == RemoveEngineer(old(store.engineers), engineerId)
    ensures store.nextIncidentId == old(store.nextIncidentId) && store.lastRefresh == old(store.lastRefresh)
  {
    store.incidents := Unassign(store.incidents, engineerId);
    store.engineers := RemoveEngineer(store.engineers, engineerId);
  }

  /**
   * POST /refresh-data: one engine run, then the marker is written again
   * whatever the run did, so it reads `now` even after a failed run.  The
   * engine's cache and error record change as the run changes them.
   */
  method RefreshData(engine: Scheduler.Engine, store: Store, now: Time, apiUrl: Option<string>,
                     fetch: Scheduler.FetchOutcome)
    modifies engine, store
    ensures engine.CacheStep(now, apiUrl, fetch)
    ensures store.lastRefresh == Some(now)
    ensures store.engineers == old(store.engineers)
    ensures
      match Scheduler.LedgerOutcome(old(store.incidents), old(store.nextIncidentId),
                                    Scheduler.RunPayload(old(engine.cacheData), old(engine.cacheFetched), now, apiUrl, fetch),
                                    now)
      case RolledBack =>
        store.incidents == old(store.incidents) && store.nextIncidentId == old(store.nextIncidentId)
      case Committed(rows, nextId) =>
        store.incidents == rows && store.nextIncidentId == nextId
  {
    engine.FetchAndUpdate(store, now, apiUrl, fetch);
    store.WriteRefreshMarker(now);
  }
}
