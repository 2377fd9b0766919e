/**
 * The incident ledger: the `incidents` and `engineers` tables and the
 * `app_state` row that holds the last-refresh marker.  The storage engine
 * itself is not modelled: a table is a sequence of records, and a
 * transaction is "compute the new sequence, then assign it or drop it".
 */
module Ledger {
  import opened Wrappers

  /** An instant, in whole seconds. */
  type Time = int

  /**
   * One row of the `incidents` table.  `job_api_id`, `job_name`, `status`
   * and `first_detected_at` are nullable in the schema, but the only writer
   * that inserts rows (the reconciliation engine) always fills them, so
   * they are typed as plain values here.
   */
  datatype Incident = Incident(
    id: nat,
    jobApiId: string,
    jobName: string,
    status: string,
    priority: Option<string>,
    logUrl: Option<string>,
    firstDetectedAt: Time,
    respondedAt: Option<Time>,
    resolvedAt: Option<Time>,
    responderId: Option<int>,
    incNumber: Option<string>,
    incLink: Option<string>,
    notes: Option<string>,
    lastApiUpdate: Option<Time>)

  /** One row of the `engineers` table. */
  datatype Engineer = Engineer(id: int, name: string, onCallLevel: string)

  /** An incident is open while `resolved_at` is NULL. */
  predicate IsOpen(r: Incident) {
    r.resolvedAt.None?
  }

  /** The external job ids that currently have an open incident. */
  function OpenJobIds(rows: seq<Incident>): set<string> {
    set i | 0 <= i < |rows| && IsOpen(rows[i]) :: rows[i].jobApiId
  }

  /** The application-level uniqueness rule: one open row per external job id. */
  ghost predicate AtMostOneOpen(rows: seq<Incident>) {
    forall i, j ::
      0 <= i < |rows| && 0 <= j < |rows| && IsOpen(rows[i]) && IsOpen(rows[j]) && rows[i].jobApiId == rows[j].jobApiId
      ==> i == j
  }

  /** Primary keys are distinct and all below the next value of the id sequence. */
  ghost predicate KeysBelow(rows: seq<Incident>, nextId: nat) {
    && (forall i :: 0 <= i < |rows| ==> rows[i].id < nextId)
    && (forall i, j :: 0 <= i < j < |rows| ==> rows[i].id != rows[j].id)
  }

  /** The ledger invariant the engine and the triage handlers are meant to keep. */
  ghost predicate Consistent(rows: seq<Incident>, nextId: nat) {
    AtMostOneOpen(rows) && KeysBelow(rows, nextId)
  }

  /**
   * `after` keeps the identity of `before` and every column owned by human
   * triage: responder, priority, incident number and link, notes, and a
   * response time once one is recorded.
   */
  predicate KeepsTriage(before: Incident, after: Incident) {
    && after.id == before.id
    && after.jobApiId == before.jobApiId
    && after.jobName == before.jobName
    && after.firstDetectedAt == before.firstDetectedAt
    && after.priority == before.priority
    && after.responderId == before.responderId
    && after.incNumber == before.incNumber
    && after.incLink == before.incLink
    && after.notes == before.notes
    && (before.respondedAt.Some? ==> after.respondedAt == before.respondedAt)
  }

  /** The database: both tables, the incident id sequence and the refresh marker. */
  class Store {
    var incidents: seq<Incident>
    /** Next value of `incident_id_seq`. */
    var nextIncidentId: nat
    var engineers: seq<Engineer>
    /** The `last_refresh_time` row of `app_state`; None until first written. */
    var lastRefresh: Option<Time>

    /** A fresh database: no incidents, the id sequence at its start value 1. */
    constructor (engineers: seq<Engineer>)
      ensures this.incidents == [] && this.nextIncidentId == 1
      ensures this.engineers == engineers && this.lastRefresh == None
    {
      this.incidents := [];
      this.nextIncidentId := 1;
      this.engineers := engineers;
      this.lastRefresh := None;
    }

    /** The marker upsert: the `last_refresh_time` key now holds `now`. */
    method WriteRefreshMarker(now: Time)
      modifies this
      ensures lastRefresh == Some(now)
      ensures incidents == old(incidents) && nextIncidentId == old(nextIncidentId)
      ensures engineers == old(engineers)
    {
      lastRefresh := Some(now);
    }
  }
}
