/**
 * Human triage of incidents: the UPDATE and DELETE statements issued by the
 * dashboard's form handlers, each as a function from the old table to the
 * new one, with what each may and may not change.
 */
module Triage {
  import opened Wrappers
  import opened Ledger
  import Text

  /**
   * The columns the reconciliation engine owns: identity, job, status, log,
   * detection, resolution and last-report times.  Triage edits other than
   * the manual resolve leave them alone.
   */
  predicate KeepsEngineColumns(before: Incident, after: Incident) {
    && after.id == before.id
    && after.jobApiId == before.jobApiId
    && after.jobName == before.jobName
    && after.status == before.status
    && after.logUrl == before.logUrl
    && after.firstDetectedAt == before.firstDetectedAt
    && after.resolvedAt == before.resolvedAt
    && after.lastApiUpdate == before.lastApiUpdate
  }

  // ---------------------------------------------------------------------
  // respond_incident
  // ---------------------------------------------------------------------

  /** The five columns a response writes. */
  function Responded(r: Incident, engineerId: int, priority: string,
                     incNumber: Option<string>, incLink: Option<string>, now: Time): Incident {
    r.(responderId := Some(engineerId), priority := Some(priority), respondedAt := Some(now),
       incNumber := incNumber, incLink := incLink)
  }

  /**
   * The response UPDATE: only when an engineer and a non-empty priority
   * were submitted, and only on the addressed row while it has no response.
   */
  function Respond(rows: seq<Incident>, incidentId: int, engineerId: Option<int>, priority: Option<string>,
                   incNumber: Option<string>, incLink: Option<string>, now: Time): seq<Incident> {
    if engineerId.Some? && Text.Present(priority) then
      seq(|rows|, i requires 0 <= i < |rows| =>
        if rows[i].id == incidentId && rows[i].respondedAt.None?
        then Responded(rows[i], engineerId.value, priority.value, incNumber, incLink, now)
        else rows[i])
    else rows
  }

  /**
   * What a response does: without an engineer or a priority nothing; with
   * both, the addressed row gains responder, priority, response time and
   * incident reference if it had no response yet, and every other row,
   * and every already-answered row, is left as it was.
   */
  lemma RespondEffect(rows: seq<Incident>, incidentId: int, engineerId: Option<int>, priority: Option<string>,
                      incNumber: Option<string>, incLink: Option<string>, now: Time)
    ensures var u := Respond(rows, incidentId, engineerId, priority, incNumber, incLink, now);
      && |u| == |rows|
      && (!(engineerId.Some? && Text.Present(priority)) ==> u == rows)
      && (forall i :: 0 <= i < |rows| && (rows[i].id != incidentId || rows[i].respondedAt.Some?) ==> u[i] == rows[i])
      && (forall i :: 0 <= i < |rows| && u[i] != rows[i] ==>
            && KeepsEngineColumns(rows[i], u[i]) && u[i].notes == rows[i].notes
            && u[i].responderId == engineerId && u[i].priority == priority
            && u[i].respondedAt == Some(now) && u[i].incNumber == incNumber && u[i].incLink == incLink)
      && (engineerId.Some? && Text.Present(priority) ==>
            forall i :: 0 <= i < |rows| && rows[i].id == incidentId ==> u[i].respondedAt.Some?)
  {
  }

  /** A second response to the same incident changes nothing: responding is one-shot. */
  lemma RespondIsOneShot(rows: seq<Incident>, incidentId: int, engineerId: Option<int>, priority: Option<string>,
                         incNumber: Option<string>, incLink: Option<string>, now: Time,
                         engineerId2: Option<int>, priority2: Option<string>,
                         incNumber2: Option<string>, incLink2: Option<string>, now2: Time)
    requires engineerId.Some? && Text.Present(priority)
    ensures var once := Respond(rows, incidentId, engineerId, priority, incNumber, incLink, now);
      Respond(once, incidentId, engineerId2, priority2, incNumber2, incLink2, now2) == once
  {
    var once := Respond(rows, incidentId, engineerId, priority, incNumber, incLink, now);
    var twice := Respond(once, incidentId, engineerId2, priority2, incNumber2, incLink2, now2);
    if engineerId2.Some? && Text.Present(priority2) {
      assert forall i :: 0 <= i < |once| ==> twice[i] == once[i];
    }
  }

  // ---------------------------------------------------------------------
  // update_incident_priority and update_inc_link
  // ---------------------------------------------------------------------

  /** The priority UPDATE, issued only for a non-empty priority. */
  function SetPriority(rows: seq<Incident>, incidentId: int, priority: Option<string>): seq<Incident> {
    if Text.Present(priority) then
      seq(|rows|, i requires 0 <= i < |rows| =>
        if rows[i].id == incidentId then rows[i].(priority := priority) else rows[i])
    else rows
  }

  /** A priority edit writes only `priority`, only on the addressed row, only when one is given. */
  lemma SetPriorityEffect(rows: seq<Incident>, incidentId: int, priority: Option<string>)
    ensures var u := SetPriority(rows, incidentId, priority);
      && |u| == |rows|
      && (!Text.Present(priority) ==> u == rows)
      && (forall i :: 0 <= i < |rows| ==> u[i] == rows[i].(priority := u[i].priority))
      && (forall i :: 0 <= i < |rows| && rows[i].id != incidentId ==> u[i] == rows[i])
      && (forall i :: 0 <= i < |rows| && rows[i].id == incidentId && Text.Present(priority) ==> u[i].priority == priority)
  {
  }

  /** One column of the link UPDATE: set when its form value is non-empty. */
  function Overwrite(current: Option<string>, submitted: Option<string>): Option<string> {
    if Text.Present(submitted) then submitted else current
  }

  /** The link UPDATE: each of `inc_number` and `inc_link` is set only when submitted non-empty. */
  function SetIncLink(rows: seq<Incident>, incidentId: int, incNumber: Option<string>, incLink: Option<string>): seq<Incident> {
    if Text.Present(incNumber) || Text.Present(incLink) then
      seq(|rows|, i requires 0 <= i < |rows| =>
        if rows[i].id == incidentId
        then rows[i].(incNumber := Overwrite(rows[i].incNumber, incNumber),
                      incLink := Overwrite(rows[i].incLink, incLink))
        else rows[i])
    else rows
  }

  /** A link edit writes only the submitted ones of the two reference columns, only on the addressed row. */
  lemma SetIncLinkEffect(rows: seq<Incident>, incidentId: int, incNumber: Option<string>, incLink: Option<string>)
    ensures var u := SetIncLink(rows, incidentId, incNumber, incLink);
      && |u| == |rows|
      && (!Text.Present(incNumber) && !Text.Present(incLink) ==> u == rows)
      && (forall i :: 0 <= i < |rows| ==> u[i] == rows[i].(incNumber := u[i].incNumber, incLink := u[i].incLink))
      && (forall i :: 0 <= i < |rows| && rows[i].id != incidentId ==> u[i] == rows[i])
      && (forall i :: 0 <= i < |rows| && rows[i].id == incidentId ==>
            && u[i].incNumber == (if Text.Present(incNumber) then incNumber else rows[i].incNumber)
            && u[i].incLink == (if Text.Present(incLink) then incLink else rows[i].incLink))
  {
  }

  // ---------------------------------------------------------------------
  // resolve_incident
  // ---------------------------------------------------------------------

  /** The manual resolve UPDATE: `resolved_at = now` on the addressed row, resolved or not. */
  function ManualResolve(rows: seq<Incident>, incidentId: int, now: Time): seq<Incident> {
    seq(|rows|, i requires 0 <= i < |rows| =>
      if rows[i].id == incidentId then rows[i].(resolvedAt := Some(now)) else rows[i])
  }

  /**
   * A manual resolve writes only `resolved_at`, overwriting an earlier
   * resolution time too, and never opens an incident.
   */
  lemma ManualResolveEffect(rows: seq<Incident>, incidentId: int, now: Time)
    ensures var u := ManualResolve(rows, incidentId, now);
      && |u| == |rows|
      && (forall i :: 0 <= i < |rows| ==> u[i] == rows[i].(resolvedAt := u[i].resolvedAt))
      && (forall i :: 0 <= i < |rows| ==> u[i].resolvedAt == if rows[i].id == incidentId then Some(now) else rows[i].resolvedAt)
      && OpenJobIds(u) <= OpenJobIds(rows)
  {
    var u := ManualResolve(rows, incidentId, now);
    forall k | k in OpenJobIds(u) ensures k in OpenJobIds(rows) {
      var i :| 0 <= i < |u| && IsOpen(u[i]) && u[i].jobApiId == k;
    }
  }

  // ---------------------------------------------------------------------
  // delete_engineer
  // ---------------------------------------------------------------------

  /** The first UPDATE of an engineer deletion: drop every reference to the engineer. */
  function Unassign(rows: seq<Incident>, engineerId: int): seq<Incident> {
    seq(|rows|, i requires 0 <= i < |rows| =>
      if rows[i].responderId == Some(engineerId) then rows[i].(responderId := None) else rows[i])
  }

  /** The DELETE: every engineer row with that id goes, the others stay in order. */
  function RemoveEngineer(engineers: seq<Engineer>, engineerId: int): seq<Engineer>
    decreases |engineers|
  {
    if engineers == [] then []
    else if engineers[0].id == engineerId then RemoveEngineer(engineers[1..], engineerId)
    else [engineers[0]] + RemoveEngineer(engineers[1..], engineerId)
  }

  /**
   * After a deletion no incident refers to the engineer and no engineer row
   * has the id; incidents lose only that reference, and the remaining
   * engineers are exactly the others.
   */
  lemma {:induction false} DeleteEngineerDereferences(rows: seq<Incident>, engineers: seq<Engineer>, engineerId: int)
    ensures var u := Unassign(rows, engineerId);
      && |u| == |rows|
      && (forall i :: 0 <= i < |u| ==> u[i].responderId != Some(engineerId))
      && (forall i :: 0 <= i < |rows| ==>
            u[i] == if rows[i].responderId == Some(engineerId) then rows[i].(responderId := None) else rows[i])
    ensures var e := RemoveEngineer(engineers, engineerId);
      && (forall x :: x in e <==> x in engineers && x.id != engineerId)
      && |e| <= |engineers|
    decreases |engineers|
  {
    if engineers != [] {
      DeleteEngineerDereferences(rows, engineers[1..], engineerId);
    }
  }

  // ---------------------------------------------------------------------
  // The ledger invariant under triage
  // ---------------------------------------------------------------------

  /** A table edit that keeps ids and job ids and opens nothing keeps the ledger consistent. */
  lemma ConsistentUnderEdit(rows: seq<Incident>, u: seq<Incident>, nextId: nat)
    requires Consistent(rows, nextId)
    requires |u| == |rows|
    requires forall i :: 0 <= i < |rows| ==> u[i].id == rows[i].id && u[i].jobApiId == rows[i].jobApiId
    requires forall i :: 0 <= i < |rows| && IsOpen(u[i]) ==> IsOpen(rows[i])
    ensures Consistent(u, nextId)
  {
  }

  lemma RespondPreservesConsistency(rows: seq<Incident>, nextId: nat, incidentId: int, engineerId: Option<int>,
                                    priority: Option<string>, incNumber: Option<string>, incLink: Option<string>,
                                    now: Time)
    requires Consistent(rows, nextId)
    ensures Consistent(Respond(rows, incidentId, engineerId, priority, incNumber, incLink, now), nextId)
  {
    RespondEffect(rows, incidentId, engineerId, priority, incNumber, incLink, now);
    ConsistentUnderEdit(rows, Respond(rows, incidentId, engineerId, priority, incNumber, incLink, now), nextId);
  }

  lemma SetPriorityPreservesConsistency(rows: seq<Incident>, nextId: nat, incidentId: int, priority: Option<string>)
    requires Consistent(rows, nextId)
    ensures Consistent(SetPriority(rows, incidentId, priority), nextId)
  {
    SetPriorityEffect(rows, incidentId, priority);
    ConsistentUnderEdit(rows, SetPriority(rows, incidentId, priority), nextId);
  }

  lemma SetIncLinkPreservesConsistency(rows: seq<Incident>, nextId: nat, incidentId: int,
                                       incNumber: Option<string>, incLink: Option<string>)
    requires Consistent(rows, nextId)
    ensures Consistent(SetIncLink(rows, incidentId, incNumber, incLink), nextId)
  {
    SetIncLinkEffect(rows, incidentId, incNumber, incLink);
    ConsistentUnderEdit(rows, SetIncLink(rows, incidentId, incNumber, incLink), nextId);
  }

  /** Every triage edit keeps one open row per job and the key discipline. */
  lemma TriagePreservesConsistency(rows: seq<Incident>, nextId: nat, incidentId: int, engineerId: Option<int>,
                                   priority: Option<string>, incNumber: Option<string>, incLink: Option<string>,
                                   deleted: int, now: Time)
    requires Consistent(rows, nextId)
    ensures Consistent(Respond(rows, incidentId, engineerId, priority, incNumber, incLink, now), nextId)
    ensures Consistent(SetPriority(rows, incidentId, priority), nextId)
    ensures Consistent(SetIncLink(rows, incidentId, incNumber, incLink), nextId)
    ensures Consistent(ManualResolve(rows, incidentId, now), nextId)
    ensures Consistent(Unassign(rows, deleted), nextId)
  {
    RespondPreservesConsistency(rows, nextId, incidentId, engineerId, priority, incNumber, incLink, now);
    SetPriorityPreservesConsistency(rows, nextId, incidentId, priority);
    SetIncLinkPreservesConsistency(rows, nextId, incidentId, incNumber, incLink);
    ConsistentUnderEdit(rows, ManualResolve(rows, incidentId, now), nextId);
    ConsistentUnderEdit(rows, Unassign(rows, deleted), nextId);
  }
}
