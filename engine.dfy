/**
 * The reconciliation engine: the process-wide response cache and error
 * record, and one scheduled run of the job-status reconciliation against
 * the ledger.  The HTTP call is an input (`FetchOutcome`), the clock is the
 * parameter `now`, and the database transaction is a local copy of the
 * ledger that is either assigned back (commit) or dropped (rollback).
 */
module Scheduler {
  import opened Wrappers
  import opened Ledger
  import opened Reconcile
  import opened Text

  /** A cached payload younger than this many seconds is reused. */
  const CacheDurationSeconds: int := 25

  /** The error recorded when no API address is configured. */
  const UnconfiguredMessage: string := "API_URL not configured"

  /** What the HTTP request produced: a decoded payload, or an exception's text. */
  datatype FetchOutcome = Fetched(payload: seq<Entry>) | FetchFailed(message: string)

  /** The cache may serve `now`: it holds a non-empty payload fetched less than 25 s ago. */
  predicate CacheFresh(data: Option<seq<Entry>>, fetched: Option<Time>, now: Time) {
    data.Some? && data.value != [] && fetched.Some? && now - fetched.value < CacheDurationSeconds
  }

  /**
   * The payload a run works on: the cached one when fresh, otherwise the
   * fetched one; None when the address is missing or the request failed.
   */
  function RunPayload(data: Option<seq<Entry>>, fetched: Option<Time>, now: Time,
                      apiUrl: Option<string>, fetch: FetchOutcome): (p: Option<seq<Entry>>)
    ensures p.None? <==> !CacheFresh(data, fetched, now) && (!Present(apiUrl) || fetch.FetchFailed?)
    ensures CacheFresh(data, fetched, now) ==> p == data
    ensures !CacheFresh(data, fetched, now) && p.Some? ==> fetch == Fetched(p.value)
  {
    if CacheFresh(data, fetched, now) then data
    else if !Present(apiUrl) then None
    else match fetch
      case Fetched(payload) => Some(payload)
      case FetchFailed(_) => None
  }

  /** What a run leaves in the ledger for a given payload: a non-empty one runs a pass. */
  function LedgerOutcome(rows: seq<Incident>, nextId: nat, payload: Option<seq<Entry>>, now: Time): Outcome {
    if payload.None? || payload.value == [] then RolledBack
    else Pass(rows, nextId, payload.value, now)
  }

  /**
   * The loop over the payload (scheduler.py:165-258) on an uncommitted copy of
   * the ledger.  `ok` is false when an element raises, and then the copy is
   * to be dropped; otherwise the copy, the id sequence and the seen set are
   * those of the walk `ApplyEntries`.
   */
  method WalkPayload(rows0: seq<Incident>, nextId0: nat, snap: Snapshot, jobs: seq<Entry>, now: Time)
    returns (ok: bool, rows: seq<Incident>, nextId: nat, seen: set<string>)
    ensures ok <==> NotAnObject !in jobs
    ensures ok ==> ApplyEntries(PassState(rows0, nextId0, {}), snap, jobs, now) == Some(PassState(rows, nextId, seen))
  {
    ghost var start := PassState(rows0, nextId0, {});
    rows, nextId, seen := rows0, nextId0, {};
    ApplyEntriesFails(start, snap, jobs, now);
    var k := 0;
    while k < |jobs|
      invariant 0 <= k <= |jobs|
      invariant ApplyEntries(start, snap, jobs[..k], now) == Some(PassState(rows, nextId, seen))
    {
      assert jobs[..k + 1][..k] == jobs[..k];
      match jobs[k] {
        case NotAnObject =>
          // Reading a key of a non-object raises.
          return false, rows, nextId, seen;
        case JobRecord(id, name, status, logUrl) =>
          if Present(id) && Present(name) && Present(status) {
            var x, s := id.value, status.value;
            seen := seen + {x};
            if IsActiveStatus(s) {
              if x in snap.status {
                var newStatus := if snap.status[x] != s then Some(s) else None;
                rows := UpdateOpen(rows, x, Refresh(newStatus, logUrl), now);
              } else {
                rows := rows + [NewIncident(nextId, x, name.value, s, logUrl, now)];
                nextId := nextId + 1;
              }
            } else if IsClearingStatus(s) && x in snap.status {
              rows := UpdateOpen(rows, x, CloseReported(s), now);
            }
          }
      }
      k := k + 1;
    }
    assert jobs[..k] == jobs;
    ok := true;
  }

  /**
   * The loop over the snapshot's keys (scheduler.py:266-297): every key not
   * seen in the payload whose last report is older than the grace period
   * has its open rows resolved now.
   */
  method SweepUnreported(rows0: seq<Incident>, keys: seq<string>, seen: set<string>, now: Time)
    returns (rows: seq<Incident>)
    ensures rows == Sweep(rows0, keys, seen, now)
  {
    rows := rows0;
    for i := 0 to |keys|
      invariant rows == Sweep(rows0, keys[..i], seen, now)
    {
      assert keys[..i + 1][..i] == keys[..i];
      var x := keys[i];
      if x !in seen {
        var lastUpdate := LastSeen(rows, x);
        if lastUpdate.Some? && now - lastUpdate.value > GracePeriodSeconds {
          rows := UpdateOpen(rows, x, CloseSilently, now);
        }
      }
    }
    assert keys[..|keys|] == keys;
  }

  class Engine {
    /** `api_data_cache`: the last payload fetched, and when. */
    var cacheData: Option<seq<Entry>>
    var cacheFetched: Option<Time>
    /** `api_error_state`. */
    var hasError: bool
    var lastError: Option<string>
    var lastErrorTime: Option<Time>

    /** Process start: empty cache, no error. */
    constructor ()
      ensures cacheData.None? && cacheFetched.None?
      ensures !hasError && lastError.None? && lastErrorTime.None?
    {
      cacheData := None;
      cacheFetched := None;
      hasError := false;
      lastError := None;
      lastErrorTime := None;
    }

    /**
     * What one run does to the cache and the error record: a fresh cache is
     * used as is and nothing changes; otherwise a missing address or a
     * failed request records the error at `now` and keeps the cache, and a
     * successful request replaces the cache and clears the error flag and
     * text (not its time).
     */
    twostate predicate CacheStep(now: Time, apiUrl: Option<string>, fetch: FetchOutcome)
      reads this
    {
      && (CacheFresh(old(cacheData), old(cacheFetched), now) ==>
           && cacheData == old(cacheData) && cacheFetched == old(cacheFetched)
           && hasError == old(hasError) && lastError == old(lastError) && lastErrorTime == old(lastErrorTime))
      && (!CacheFresh(old(cacheData), old(cacheFetched), now) && !Present(apiUrl) ==>
           && cacheData == old(cacheData) && cacheFetched == old(cacheFetched)
           && hasError && lastError == Some(UnconfiguredMessage) && lastErrorTime == Some(now))
      && (!CacheFresh(old(cacheData), old(cacheFetched), now) && Present(apiUrl) && fetch.FetchFailed? ==>
           && cacheData == old(cacheData) && cacheFetched == old(cacheFetched)
           && hasError && lastError == Some(fetch.message) && lastErrorTime == Some(now))
      && (!CacheFresh(old(cacheData), old(cacheFetched), now) && Present(apiUrl) && fetch.Fetched? ==>
           && cacheData == Some(fetch.payload) && cacheFetched == Some(now)
           && !hasError && lastError.None? && lastErrorTime == old(lastErrorTime))
    }

    /**
     * One scheduled run.  Cache and error record: as `CacheStep` says; a
     * missing address or a failed request stops the run.  Ledger: an empty
     * payload changes nothing; otherwise the pass runs and, when it
     * commits, the refresh marker is rewritten; a rolled-back pass changes
     * nothing.
     */
    method FetchAndUpdate(store: Store, now: Time, apiUrl: Option<string>, fetch: FetchOutcome)
      modifies this, store
      ensures CacheStep(now, apiUrl, fetch)
      ensures store.engineers == old(store.engineers)
      ensures
        match LedgerOutcome(old(store.incidents), old(store.nextIncidentId),
                            RunPayload(old(cacheData), old(cacheFetched), now, apiUrl, fetch), now)
        case RolledBack =>
          && store.incidents == old(store.incidents) && store.nextIncidentId == old(store.nextIncidentId)
          && store.lastRefresh == old(store.lastRefresh)
        case Committed(rows, nextId) =>
          && store.incidents == rows && store.nextIncidentId == nextId
          && store.lastRefresh == Some(now)
    {
      var jobs: seq<Entry>;
      if CacheFresh(cacheData, cacheFetched, now) {
        jobs := cacheData.value;
      } else {
        if !Present(apiUrl) {
          hasError := true;
          lastError := Some(UnconfiguredMessage);
          lastErrorTime := Some(now);
          return;
        }
        match fetch {
          case FetchFailed(message) =>
            hasError := true;
            lastError := Some(message);
            lastErrorTime := Some(now);
            return;
          case Fetched(payload) =>
            jobs := payload;
            cacheData := Some(payload);
            cacheFetched := Some(now);
            hasError := false;
            lastError := None;
        }
      }
      if jobs == [] {
        return;
      }

      // The transaction: a private copy of the table and the id sequence.
      var snap := TakeSnapshot(store.incidents);
      var ok, rows, nextId, seen := WalkPayload(store.incidents, store.nextIncidentId, snap, jobs, now);
      if !ok {
        PassRollsBackIff(store.incidents, store.nextIncidentId, jobs, now);
        return;
      }
      rows := SweepUnreported(rows, snap.order, seen, now);
      store.incidents := rows;
      store.nextIncidentId := nextId;
      store.WriteRefreshMarker(now);
    }
  }
}
