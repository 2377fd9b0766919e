/**
 * One reconciliation pass over the incident ledger, as values: the open
 * snapshot, the walk over the fetched payload, the grace-period sweep and
 * the commit-or-rollback outcome.  `Scheduler.Engine.FetchAndUpdate` runs
 * the same pass with loops and is proved equal to `Pass`.
 */
module Reconcile {
  import opened Wrappers
  import opened Ledger
  import opened Text

  /** Seconds an open incident may go unreported before the sweep resolves it. */
  const GracePeriodSeconds: int := 120

  /** One element of the fetched payload. */
  datatype Entry =
    | JobRecord(id: Option<string>, name: Option<string>, status: Option<string>, logUrl: Option<string>)
      /** An element that is not a JSON object: reading a key from it raises. */
    | NotAnObject

  /** A record the pass acts on: it has an id, a name and a status. */
  predicate IsComplete(e: Entry) {
    e.JobRecord? && Present(e.id) && Present(e.name) && Present(e.status)
  }

  predicate IsActiveStatus(s: string) {
    s == "CRITICAL" || s == "ERROR" || s == "WARNING"
  }

  predicate IsClearingStatus(s: string) {
    s == "OK" || s == "LOG"
  }

  /** The job ids of the complete records of a payload: the pass's "seen" set. */
  function CompleteIds(es: seq<Entry>): set<string> {
    set i | 0 <= i < |es| && IsComplete(es[i]) :: es[i].id.value
  }

  /** No two complete records of the payload report the same job id. */
  ghost predicate DistinctIds(es: seq<Entry>) {
    forall i, j :: 0 <= i < j < |es| && IsComplete(es[i]) && IsComplete(es[j]) ==> es[i].id.value != es[j].id.value
  }

  /**
   * The dictionary of open incidents built once at the start of a pass:
   * keys in first-insertion order, and for each key the status of the last
   * open row read for it.
   */
  datatype Snapshot = Snapshot(order: seq<string>, status: map<string, string>)

  function TakeSnapshot(rows: seq<Incident>): (s: Snapshot)
    ensures s.status.Keys == OpenJobIds(rows)
    ensures forall k :: k in s.order <==> k in s.status
    ensures forall i, j :: 0 <= i < j < |s.order| ==> s.order[i] != s.order[j]
    decreases |rows|
  {
    if rows == [] then Snapshot([], map[])
    else
      var s := TakeSnapshot(rows[..|rows| - 1]);
      var r := rows[|rows| - 1];
      OpenJobIdsSnoc(rows);
      if !IsOpen(r) then s
      else if r.jobApiId in s.status then Snapshot(s.order, s.status[r.jobApiId := r.status])
      else Snapshot(s.order + [r.jobApiId], s.status[r.jobApiId := r.status])
  }

  lemma OpenJobIdsSnoc(rows: seq<Incident>)
    requires rows != []
    ensures OpenJobIds(rows) == OpenJobIds(rows[..|rows| - 1])
                                + (if IsOpen(rows[|rows| - 1]) then {rows[|rows| - 1].jobApiId} else {})
  {
    var front := rows[..|rows| - 1];
    forall k | k in OpenJobIds(rows)
      ensures k in OpenJobIds(front) || (IsOpen(rows[|rows| - 1]) && k == rows[|rows| - 1].jobApiId)
    {
      var i :| 0 <= i < |rows| && IsOpen(rows[i]) && rows[i].jobApiId == k;
      if i < |front| {
        assert front[i] == rows[i];
      }
    }
    forall k | k in OpenJobIds(front) ensures k in OpenJobIds(rows) {
      var i :| 0 <= i < |front| && IsOpen(front[i]) && front[i].jobApiId == k;
      assert rows[i] == front[i];
    }
  }

  /** Reading one more row: an open row overwrites its job's entry. */
  lemma SnapshotSnoc(rows: seq<Incident>)
    requires rows != []
    ensures TakeSnapshot(rows).status
         == if IsOpen(rows[|rows| - 1])
            then TakeSnapshot(rows[..|rows| - 1]).status[rows[|rows| - 1].jobApiId := rows[|rows| - 1].status]
            else TakeSnapshot(rows[..|rows| - 1]).status
  {
    var s := TakeSnapshot(rows[..|rows| - 1]);
    var r := rows[|rows| - 1];
    if IsOpen(r) {
      if r.jobApiId in s.status {
        assert TakeSnapshot(rows) == Snapshot(s.order, s.status[r.jobApiId := r.status]);
      } else {
        assert TakeSnapshot(rows) == Snapshot(s.order + [r.jobApiId], s.status[r.jobApiId := r.status]);
      }
    } else {
      assert TakeSnapshot(rows) == s;
    }
  }

  lemma AtMostOneOpenFront(rows: seq<Incident>)
    requires AtMostOneOpen(rows) && rows != []
    ensures AtMostOneOpen(rows[..|rows| - 1])
  {
    var front := rows[..|rows| - 1];
    forall a, b | 0 <= a < |front| && 0 <= b < |front| && IsOpen(front[a]) && IsOpen(front[b])
                  && front[a].jobApiId == front[b].jobApiId
      ensures a == b
    {
      assert rows[a] == front[a] && rows[b] == front[b];
    }
  }

  /** Under the one-open-row rule the snapshot holds each open row's own status. */
  lemma {:induction false} SnapshotStatusOfOpenRow(rows: seq<Incident>, i: nat)
    requires AtMostOneOpen(rows)
    requires i < |rows| && IsOpen(rows[i])
    ensures rows[i].jobApiId in TakeSnapshot(rows).status
    ensures TakeSnapshot(rows).status[rows[i].jobApiId] == rows[i].status
    decreases |rows|
  {
    var front := rows[..|rows| - 1];
    var last := rows[|rows| - 1];
    SnapshotSnoc(rows);
    if i < |rows| - 1 {
      assert front[i] == rows[i];
      AtMostOneOpenFront(rows);
      SnapshotStatusOfOpenRow(front, i);
      assert !(IsOpen(last) && last.jobApiId == rows[i].jobApiId);
    }
  }

  /** New values written by an UPDATE; see `Change`. */
  function Refreshed(r: Incident, newStatus: Option<string>, logUrl: Option<string>, now: Time): Incident {
    r.(status := newStatus.GetOr(r.status), logUrl := logUrl, lastApiUpdate := Some(now))
  }

  /** Resolution on an OK/LOG report, backfilling a missing response time. */
  function ClosedAsReported(r: Incident, status: string, now: Time): Incident {
    r.(resolvedAt := Some(now), status := status, lastApiUpdate := Some(now),
       respondedAt := if r.respondedAt.None? then Some(r.firstDetectedAt) else r.respondedAt)
  }

  /** Resolution after the grace period: only `resolved_at` is written. */
  function ClosedSilently(r: Incident, now: Time): Incident {
    r.(resolvedAt := Some(now))
  }

  /** The three UPDATE statements the engine issues against open rows. */
  datatype Change =
    | Refresh(newStatus: Option<string>, logUrl: Option<string>)
    | CloseReported(status: string)
    | CloseSilently

  function Changed(r: Incident, c: Change, now: Time): Incident {
    match c
    case Refresh(s, log) => Refreshed(r, s, log, now)
    case CloseReported(s) => ClosedAsReported(r, s, now)
    case CloseSilently => ClosedSilently(r, now)
  }

  /** `UPDATE incidents SET … WHERE job_api_id = ? AND resolved_at IS NULL`: every open row of the job. */
  function UpdateOpen(rows: seq<Incident>, jobId: string, c: Change, now: Time): (u: seq<Incident>)
    ensures |u| == |rows|
    ensures forall i :: 0 <= i < |rows| ==>
      u[i] == if rows[i].jobApiId == jobId && IsOpen(rows[i]) then Changed(rows[i], c, now) else rows[i]
  {
    seq(|rows|, i requires 0 <= i < |rows| =>
      if rows[i].jobApiId == jobId && IsOpen(rows[i]) then Changed(rows[i], c, now) else rows[i])
  }

  /** The INSERT for a newly failing job: detected and last updated now, not resolved, not triaged. */
  function NewIncident(id: nat, jobId: string, name: string, status: string, logUrl: Option<string>, now: Time): Incident {
    Incident(id, jobId, name, status, None, logUrl, now, None, None, None, None, None, None, Some(now))
  }

  /** The uncommitted ledger, the next id of the sequence, and the ids seen so far. */
  datatype PassState = PassState(rows: seq<Incident>, nextId: nat, seen: set<string>)

  /** One iteration of the loop over the payload; None when the element raises. */
  function ApplyEntry(st: PassState, snap: Snapshot, e: Entry, now: Time): Option<PassState> {
    match e
    case NotAnObject => None
    case JobRecord(id, name, status, logUrl) =>
      if !(Present(id) && Present(name) && Present(status)) then Some(st)
      else
        var x, s := id.value, status.value;
        var st1 := st.(seen := st.seen + {x});
        if IsActiveStatus(s) then
          if x in snap.status then
            var newStatus := if snap.status[x] != s then Some(s) else None;
            Some(st1.(rows := UpdateOpen(st.rows, x, Refresh(newStatus, logUrl), now)))
          else
            Some(st1.(rows := st.rows + [NewIncident(st.nextId, x, name.value, s, logUrl, now)],
                      nextId := st.nextId + 1))
        else if IsClearingStatus(s) && x in snap.status then
          Some(st1.(rows := UpdateOpen(st.rows, x, CloseReported(s), now)))
        else
          Some(st1)
  }

  /** The loop over the payload, element by element; None as soon as one raises. */
  function ApplyEntries(st: PassState, snap: Snapshot, es: seq<Entry>, now: Time): Option<PassState>
    decreases |es|
  {
    if es == [] then Some(st)
    else
      match ApplyEntries(st, snap, es[..|es| - 1], now)
      case None => None
      case Some(mid) => ApplyEntry(mid, snap, es[|es| - 1], now)
  }

  /** `last_api_update` of the first open row of the job (the sweep's fetchone), when set. */
  function LastSeen(rows: seq<Incident>, jobId: string): Option<Time> {
    if rows == [] then None
    else if rows[0].jobApiId == jobId && IsOpen(rows[0]) then rows[0].lastApiUpdate
    else LastSeen(rows[1..], jobId)
  }

  /** Strictly more than the grace period has passed since the last report. */
  predicate Expired(lastUpdate: Option<Time>, now: Time) {
    lastUpdate.Some? && now - lastUpdate.value > GracePeriodSeconds
  }

  /** One iteration of the sweep over the snapshot's keys. */
  function SweepOne(rows: seq<Incident>, jobId: string, seen: set<string>, now: Time): seq<Incident> {
    if jobId !in seen && Expired(LastSeen(rows, jobId), now) then UpdateOpen(rows, jobId, CloseSilently, now)
    else rows
  }

  function Sweep(rows: seq<Incident>, keys: seq<string>, seen: set<string>, now: Time): seq<Incident>
    decreases |keys|
  {
    if keys == [] then rows
    else SweepOne(Sweep(rows, keys[..|keys| - 1], seen, now), keys[|keys| - 1], seen, now)
  }

  /** What a pass leaves in the ledger: the committed rows and id sequence, or nothing. */
  datatype Outcome = Committed(rows: seq<Incident>, nextId: nat) | RolledBack

  /** The ledger part of one pass over a non-empty payload (scheduler.py:150-312). */
  function Pass(rows: seq<Incident>, nextId: nat, entries: seq<Entry>, now: Time): Outcome {
    var snap := TakeSnapshot(rows);
    match ApplyEntries(PassState(rows, nextId, {}), snap, entries, now)
    case None => RolledBack
    case Some(st) => Committed(Sweep(st.rows, snap.order, st.seen, now), st.nextId)
  }

  // ---------------------------------------------------------------------
  // Per-row view of the payload walk
  // ---------------------------------------------------------------------

  /** What one payload element does to a row that existed when the pass began. */
  function EntryEffect(r: Incident, snap: Snapshot, e: Entry, now: Time): Incident {
    if IsComplete(e) && e.id.value == r.jobApiId && IsOpen(r) && r.jobApiId in snap.status then
      var s := e.status.value;
      if IsActiveStatus(s) then Refreshed(r, if snap.status[r.jobApiId] != s then Some(s) else None, e.logUrl, now)
      else if IsClearingStatus(s) then ClosedAsReported(r, s, now)
      else r
    else r
  }

  function RowAfter(r: Incident, snap: Snapshot, es: seq<Entry>, now: Time): Incident
    decreases |es|
  {
    if es == [] then r else EntryEffect(RowAfter(r, snap, es[..|es| - 1], now), snap, es[|es| - 1], now)
  }

  lemma {:induction false} RowAfterKeeps(r: Incident, snap: Snapshot, es: seq<Entry>, now: Time)
    ensures KeepsTriage(r, RowAfter(r, snap, es, now))
    ensures !IsOpen(r) ==> RowAfter(r, snap, es, now) == r
    ensures IsOpen(RowAfter(r, snap, es, now)) ==> IsOpen(r)
    decreases |es|
  {
    if es != [] {
      RowAfterKeeps(r, snap, es[..|es| - 1], now);
    }
  }

  lemma {:induction false} RowAfterUnreported(r: Incident, snap: Snapshot, es: seq<Entry>, now: Time)
    requires r.jobApiId !in CompleteIds(es)
    ensures RowAfter(r, snap, es, now) == r
    decreases |es|
  {
    if es != [] {
      var front := es[..|es| - 1];
      assert CompleteIds(front) <= CompleteIds(es) by {
        forall k | k in CompleteIds(front) ensures k in CompleteIds(es) {
          var i :| 0 <= i < |front| && IsComplete(front[i]) && front[i].id.value == k;
          assert es[i] == front[i];
        }
      }
      RowAfterUnreported(r, snap, front, now);
      if IsComplete(es[|es| - 1]) {
        assert es[|es| - 1].id.value in CompleteIds(es);
      }
    }
  }

  lemma {:induction false} RowAfterSingleReport(r: Incident, snap: Snapshot, es: seq<Entry>, now: Time, p: nat)
    requires DistinctIds(es)
    requires p < |es| && IsComplete(es[p]) && es[p].id.value == r.jobApiId
    ensures RowAfter(r, snap, es, now) == EntryEffect(r, snap, es[p], now)
    decreases |es|
  {
    var n := |es|;
    var front := es[..n - 1];
    assert DistinctIds(front) by {
      forall i, j | 0 <= i < j < |front| && IsComplete(front[i]) && IsComplete(front[j])
        ensures front[i].id.value != front[j].id.value
      {
        assert front[i] == es[i] && front[j] == es[j];
      }
    }
    if p == n - 1 {
      forall i | 0 <= i < |front| && IsComplete(front[i]) ensures front[i].id.value != r.jobApiId {
        assert front[i] == es[i];
      }
      RowAfterUnreported(r, snap, front, now);
    } else {
      assert front[p] == es[p];
      RowAfterSingleReport(r, snap, front, now, p);
    }
  }

  // ---------------------------------------------------------------------
  // The payload walk as a whole
  // ---------------------------------------------------------------------

  lemma CompleteIdsSnoc(es: seq<Entry>)
    requires es != []
    ensures CompleteIds(es) == CompleteIds(es[..|es| - 1])
                               + (if IsComplete(es[|es| - 1]) then {es[|es| - 1].id.value} else {})
  {
    var front := es[..|es| - 1];
    forall k | k in CompleteIds(es)
      ensures k in CompleteIds(front) || (IsComplete(es[|es| - 1]) && k == es[|es| - 1].id.value)
    {
      var i :| 0 <= i < |es| && IsComplete(es[i]) && es[i].id.value == k;
      if i < |front| {
        assert front[i] == es[i];
      }
    }
    forall k | k in CompleteIds(front) ensures k in CompleteIds(es) {
      var i :| 0 <= i < |front| && IsComplete(front[i]) && front[i].id.value == k;
      assert es[i] == front[i];
    }
  }

  /** The walk raises exactly when some element is not an object. */
  lemma {:induction false} ApplyEntriesFails(st: PassState, snap: Snapshot, es: seq<Entry>, now: Time)
    ensures ApplyEntries(st, snap, es, now).None? <==> NotAnObject in es
    decreases |es|
  {
    if es != [] {
      var front := es[..|es| - 1];
      ApplyEntriesFails(st, snap, front, now);
      assert es == front + [es[|es| - 1]];
    }
  }

  /** Rows inserted by the walk: fresh, open, untriaged, of an unseen active job. */
  ghost predicate Inserted(rows: seq<Incident>, from: nat, nextId: nat, snap: Snapshot, now: Time)
    requires from <= |rows|
  {
    forall i :: from <= i < |rows| ==>
      && rows[i] == NewIncident(nextId + (i - from), rows[i].jobApiId, rows[i].jobName, rows[i].status, rows[i].logUrl, now)
      && rows[i].jobApiId !in snap.status
      && IsActiveStatus(rows[i].status)
  }

  /** One element of the walk: existing rows see `EntryEffect`, at most one row is appended. */
  lemma ApplyEntryStep(mid: PassState, snap: Snapshot, e: Entry, now: Time)
    requires ApplyEntry(mid, snap, e, now).Some?
    ensures var st := ApplyEntry(mid, snap, e, now).value;
      && st.seen == mid.seen + (if IsComplete(e) then {e.id.value} else {})
      && mid.nextId <= st.nextId <= mid.nextId + 1
      && |st.rows| == |mid.rows| + (st.nextId - mid.nextId)
      && (forall i :: 0 <= i < |mid.rows| ==> st.rows[i] == EntryEffect(mid.rows[i], snap, e, now))
      && (|st.rows| > |mid.rows| ==>
            && IsComplete(e) && e.id.value !in snap.status && IsActiveStatus(e.status.value)
            && st.rows[|mid.rows|]
               == NewIncident(mid.nextId, e.id.value, e.name.value, e.status.value, e.logUrl, now))
  {
  }

  /** The walk's bookkeeping: rows only appended, one id drawn per insert, seen = complete ids. */
  lemma {:induction false} ApplyEntriesCounts(rows: seq<Incident>, nextId: nat, snap: Snapshot, es: seq<Entry>, now: Time)
    requires ApplyEntries(PassState(rows, nextId, {}), snap, es, now).Some?
    ensures var st := ApplyEntries(PassState(rows, nextId, {}), snap, es, now).value;
      && |rows| <= |st.rows|
      && st.nextId == nextId + (|st.rows| - |rows|)
      && st.seen == CompleteIds(es)
    decreases |es|
  {
    if es == [] {
      assert CompleteIds(es) == {};
    } else {
      var front := es[..|es| - 1];
      var mid := ApplyEntries(PassState(rows, nextId, {}), snap, front, now).value;
      ApplyEntriesCounts(rows, nextId, snap, front, now);
      ApplyEntryStep(mid, snap, es[|es| - 1], now);
      CompleteIdsSnoc(es);
    }
  }

  /** Rows that existed before the walk end up as `RowAfter` says. */
  lemma {:induction false} ApplyEntriesOldRows(rows: seq<Incident>, nextId: nat, snap: Snapshot, es: seq<Entry>, now: Time)
    requires ApplyEntries(PassState(rows, nextId, {}), snap, es, now).Some?
    ensures var st := ApplyEntries(PassState(rows, nextId, {}), snap, es, now).value;
      && |rows| <= |st.rows|
      && forall i :: 0 <= i < |rows| ==> st.rows[i] == RowAfter(rows[i], snap, es, now)
    decreases |es|
  {
    ApplyEntriesCounts(rows, nextId, snap, es, now);
    if es != [] {
      var front := es[..|es| - 1];
      var mid := ApplyEntries(PassState(rows, nextId, {}), snap, front, now).value;
      ApplyEntriesOldRows(rows, nextId, snap, front, now);
      ApplyEntryStep(mid, snap, es[|es| - 1], now);
    }
  }

  /** Rows appended by the walk are fresh incidents of unseen active jobs reported by the payload. */
  lemma {:induction false} ApplyEntriesNewRows(rows: seq<Incident>, nextId: nat, snap: Snapshot, es: seq<Entry>, now: Time)
    requires ApplyEntries(PassState(rows, nextId, {}), snap, es, now).Some?
    ensures var st := ApplyEntries(PassState(rows, nextId, {}), snap, es, now).value;
      && |rows| <= |st.rows|
      && Inserted(st.rows, |rows|, nextId, snap, now)
      && (forall i :: |rows| <= i < |st.rows| ==> st.rows[i].jobApiId in CompleteIds(es))
    decreases |es|
  {
    ApplyEntriesCounts(rows, nextId, snap, es, now);
    if es != [] {
      var front := es[..|es| - 1];
      var mid := ApplyEntries(PassState(rows, nextId, {}), snap, front, now).value;
      var st := ApplyEntry(mid, snap, es[|es| - 1], now).value;
      ApplyEntriesNewRows(rows, nextId, snap, front, now);
      ApplyEntriesCounts(rows, nextId, snap, front, now);
      ApplyEntryStep(mid, snap, es[|es| - 1], now);
      CompleteIdsSnoc(es);
      forall i | |rows| <= i < |st.rows|
        ensures st.rows[i] == NewIncident(nextId + (i - |rows|), st.rows[i].jobApiId, st.rows[i].jobName,
                                          st.rows[i].status, st.rows[i].logUrl, now)
        ensures st.rows[i].jobApiId !in snap.status && IsActiveStatus(st.rows[i].status)
        ensures st.rows[i].jobApiId in CompleteIds(es)
      {
        if i < |mid.rows| {
          assert st.rows[i] == mid.rows[i];
        }
      }
    }
  }

  /** With distinct ids in the payload, no two appended rows share a job id. */
  lemma {:induction false} ApplyEntriesNewIdsDistinct(rows: seq<Incident>, nextId: nat, snap: Snapshot, es: seq<Entry>, now: Time)
    requires DistinctIds(es)
    requires ApplyEntries(PassState(rows, nextId, {}), snap, es, now).Some?
    ensures var st := ApplyEntries(PassState(rows, nextId, {}), snap, es, now).value;
      && |rows| <= |st.rows|
      && forall i, j :: |rows| <= i < j < |st.rows| ==> st.rows[i].jobApiId != st.rows[j].jobApiId
    decreases |es|
  {
    ApplyEntriesCounts(rows, nextId, snap, es, now);
    if es != [] {
      var front := es[..|es| - 1];
      var e := es[|es| - 1];
      var mid := ApplyEntries(PassState(rows, nextId, {}), snap, front, now).value;
      var st := ApplyEntry(mid, snap, e, now).value;
      assert DistinctIds(front) by {
        forall i, j | 0 <= i < j < |front| && IsComplete(front[i]) && IsComplete(front[j])
          ensures front[i].id.value != front[j].id.value
        {
          assert front[i] == es[i] && front[j] == es[j];
        }
      }
      ApplyEntriesNewIdsDistinct(rows, nextId, snap, front, now);
      ApplyEntriesNewRows(rows, nextId, snap, front, now);
      ApplyEntriesCounts(rows, nextId, snap, front, now);
      ApplyEntryStep(mid, snap, e, now);
      if |st.rows| > |mid.rows| {
        forall k | 0 <= k < |front| && IsComplete(front[k]) ensures front[k].id.value != e.id.value {
          assert front[k] == es[k];
        }
        assert e.id.value !in CompleteIds(front);
      }
      forall i, j | |rows| <= i < j < |st.rows| ensures st.rows[i].jobApiId != st.rows[j].jobApiId {
        assert st.rows[i] == mid.rows[i];
        if j < |mid.rows| {
          assert st.rows[j] == mid.rows[j];
        }
      }
    }
  }

  // ---------------------------------------------------------------------
  // The sweep
  // ---------------------------------------------------------------------

  /** The sweep's lookup reads only the rows of its own job. */
  lemma {:induction false} LastSeenFrame(a: seq<Incident>, b: seq<Incident>, x: string)
    requires |a| == |b|
    requires forall i :: 0 <= i < |a| && (a[i].jobApiId == x || b[i].jobApiId == x) ==> a[i] == b[i]
    ensures LastSeen(a, x) == LastSeen(b, x)
    decreases |a|
  {
    if a != [] {
      LastSeenFrame(a[1..], b[1..], x);
    }
  }

  /** With a single open row for the job, the lookup finds that row. */
  lemma {:induction false} LastSeenOfOnlyOpenRow(rows: seq<Incident>, i: nat)
    requires i < |rows| && IsOpen(rows[i])
    requires forall j :: 0 <= j < |rows| && j != i && IsOpen(rows[j]) ==> rows[j].jobApiId != rows[i].jobApiId
    ensures LastSeen(rows, rows[i].jobApiId) == rows[i].lastApiUpdate
    decreases |rows|
  {
    if i > 0 {
      var tail := rows[1..];
      forall j | 0 <= j < |tail| && j != i - 1 && IsOpen(tail[j]) ensures tail[j].jobApiId != tail[i - 1].jobApiId {
        assert tail[j] == rows[j + 1];
      }
      LastSeenOfOnlyOpenRow(tail, i - 1);
    }
  }

  /** The sweep resolves exactly the open rows of unseen snapshot jobs whose last report is too old. */
  lemma {:induction false} SweepShape(rows: seq<Incident>, keys: seq<string>, seen: set<string>, now: Time)
    requires forall i, j :: 0 <= i < j < |keys| ==> keys[i] != keys[j]
    ensures |Sweep(rows, keys, seen, now)| == |rows|
    ensures forall i :: 0 <= i < |rows| ==>
      Sweep(rows, keys, seen, now)[i] ==
        if IsOpen(rows[i]) && rows[i].jobApiId in keys && rows[i].jobApiId !in seen
           && Expired(LastSeen(rows, rows[i].jobApiId), now)
        then ClosedSilently(rows[i], now)
        else rows[i]
    decreases |keys|
  {
    if keys != [] {
      var front := keys[..|keys| - 1];
      var k := keys[|keys| - 1];
      SweepShape(rows, front, seen, now);
      var mid := Sweep(rows, front, seen, now);
      forall a | 0 <= a < |front| ensures front[a] != k {
        assert front[a] == keys[a];
      }
      LastSeenFrame(rows, mid, k);
      forall i | 0 <= i < |rows| ensures rows[i].jobApiId in keys <==> rows[i].jobApiId in front || rows[i].jobApiId == k {
        assert keys == front + [k];
      }
    }
  }

  // ---------------------------------------------------------------------
  // Properties of a pass
  // ---------------------------------------------------------------------

  /** A pass rolls back exactly when some payload element is not an object; otherwise it commits. */
  lemma PassRollsBackIff(rows: seq<Incident>, nextId: nat, entries: seq<Entry>, now: Time)
    ensures Pass(rows, nextId, entries, now).RolledBack? <==> NotAnObject in entries
  {
    ApplyEntriesFails(PassState(rows, nextId, {}), TakeSnapshot(rows), entries, now);
  }

  /**
   * A committed pass never removes or reorders rows, never changes a resolved
   * row, and never writes identity or triage columns of an existing row.
   */
  lemma PassKeepsHistoryAndTriage(rows: seq<Incident>, nextId: nat, entries: seq<Entry>, now: Time)
    requires Pass(rows, nextId, entries, now).Committed?
    ensures var after := Pass(rows, nextId, entries, now).rows;
      && |rows| <= |after|
      && (forall i :: 0 <= i < |rows| ==> KeepsTriage(rows[i], after[i]))
      && (forall i :: 0 <= i < |rows| && !IsOpen(rows[i]) ==> after[i] == rows[i])
  {
    var snap := TakeSnapshot(rows);
    var st := ApplyEntries(PassState(rows, nextId, {}), snap, entries, now).value;
    ApplyEntriesOldRows(rows, nextId, snap, entries, now);
    SweepShape(st.rows, snap.order, st.seen, now);
    forall i | 0 <= i < |rows| ensures KeepsTriage(rows[i], st.rows[i]) && (!IsOpen(rows[i]) ==> st.rows[i] == rows[i]) {
      RowAfterKeeps(rows[i], snap, entries, now);
    }
  }

  /**
   * The rows a committed pass appends are new incidents for active jobs that
   * had no open incident: ids drawn in order from the sequence, detected and
   * last updated now, open and untriaged.
   */
  lemma PassInsertsFreshIncidents(rows: seq<Incident>, nextId: nat, entries: seq<Entry>, now: Time)
    requires Pass(rows, nextId, entries, now).Committed?
    ensures var out := Pass(rows, nextId, entries, now);
      && out.nextId == nextId + (|out.rows| - |rows|)
      && forall i :: |rows| <= i < |out.rows| ==>
           && out.rows[i].id == nextId + (i - |rows|)
           && out.rows[i].jobApiId !in OpenJobIds(rows)
           && out.rows[i].jobApiId in CompleteIds(entries)
           && IsActiveStatus(out.rows[i].status)
           && out.rows[i].firstDetectedAt == now && out.rows[i].lastApiUpdate == Some(now)
           && IsOpen(out.rows[i]) && out.rows[i].respondedAt.None?
           && out.rows[i].responderId.None? && out.rows[i].priority.None?
  {
    var snap := TakeSnapshot(rows);
    var st := ApplyEntries(PassState(rows, nextId, {}), snap, entries, now).value;
    ApplyEntriesCounts(rows, nextId, snap, entries, now);
    ApplyEntriesNewRows(rows, nextId, snap, entries, now);
    SweepShape(st.rows, snap.order, st.seen, now);
    forall i | |rows| <= i < |st.rows| ensures !(st.rows[i].jobApiId in snap.order) {
    }
  }

  /**
   * An open incident whose job is reported by the payload: an active report
   * rewrites status and log and stamps the update time; OK/LOG resolves it
   * with the reported status and a response time (backfilled to detection
   * when missing); any other status leaves it alone.
   */
  lemma PassOnReportedIncident(rows: seq<Incident>, nextId: nat, entries: seq<Entry>, now: Time, i: nat, p: nat)
    requires AtMostOneOpen(rows) && DistinctIds(entries)
    requires i < |rows| && IsOpen(rows[i])
    requires p < |entries| && IsComplete(entries[p]) && entries[p].id.value == rows[i].jobApiId
    requires Pass(rows, nextId, entries, now).Committed?
    ensures i < |Pass(rows, nextId, entries, now).rows|
    ensures var r, s, log := rows[i], entries[p].status.value, entries[p].logUrl;
      var after := Pass(rows, nextId, entries, now).rows[i];
      && (IsActiveStatus(s) ==> after == r.(status := s, logUrl := log, lastApiUpdate := Some(now)))
      && (IsClearingStatus(s) ==>
            && after == ClosedAsReported(r, s, now)
            && after.resolvedAt == Some(now) && after.respondedAt.Some?
            && (r.respondedAt.None? ==> after.respondedAt == Some(r.firstDetectedAt)))
      && (!IsActiveStatus(s) && !IsClearingStatus(s) ==> after == r)
  {
    var snap := TakeSnapshot(rows);
    var st := ApplyEntries(PassState(rows, nextId, {}), snap, entries, now).value;
    ApplyEntriesCounts(rows, nextId, snap, entries, now);
    ApplyEntriesOldRows(rows, nextId, snap, entries, now);
    SweepShape(st.rows, snap.order, st.seen, now);
    SnapshotStatusOfOpenRow(rows, i);
    RowAfterSingleReport(rows[i], snap, entries, now, p);
    assert rows[i].jobApiId in CompleteIds(entries);
  }

  /**
   * An open incident whose job is absent from the payload is resolved, with
   * only `resolved_at` written, when its last report is more than the grace
   * period old; within the grace period, or with no recorded report time, it
   * stays as it was.
   */
  lemma PassOnSilentIncident(rows: seq<Incident>, nextId: nat, entries: seq<Entry>, now: Time, i: nat)
    requires AtMostOneOpen(rows)
    requires i < |rows| && IsOpen(rows[i])
    requires rows[i].jobApiId !in CompleteIds(entries)
    requires Pass(rows, nextId, entries, now).Committed?
    ensures i < |Pass(rows, nextId, entries, now).rows|
    ensures var r := rows[i];
      Pass(rows, nextId, entries, now).rows[i]
        == if Expired(r.lastApiUpdate, now) then r.(resolvedAt := Some(now)) else r
  {
    var snap := TakeSnapshot(rows);
    var st := ApplyEntries(PassState(rows, nextId, {}), snap, entries, now).value;
    var x := rows[i].jobApiId;
    ApplyEntriesCounts(rows, nextId, snap, entries, now);
    ApplyEntriesOldRows(rows, nextId, snap, entries, now);
    ApplyEntriesNewRows(rows, nextId, snap, entries, now);
    SweepShape(st.rows, snap.order, st.seen, now);
    RowAfterUnreported(rows[i], snap, entries, now);
    assert x in OpenJobIds(rows);
    forall j | 0 <= j < |st.rows| && j != i && IsOpen(st.rows[j]) ensures st.rows[j].jobApiId != x {
      if j < |rows| {
        RowAfterKeeps(rows[j], snap, entries, now);
      }
    }
    LastSeenOfOnlyOpenRow(st.rows, i);
  }

  /**
   * A committed pass over a payload whose records name distinct jobs keeps
   * the ledger consistent: one open row per job, distinct keys below the
   * sequence.
   */
  lemma PassPreservesConsistency(rows: seq<Incident>, nextId: nat, entries: seq<Entry>, now: Time)
    requires Consistent(rows, nextId) && DistinctIds(entries)
    requires Pass(rows, nextId, entries, now).Committed?
    ensures Consistent(Pass(rows, nextId, entries, now).rows, Pass(rows, nextId, entries, now).nextId)
  {
    var snap := TakeSnapshot(rows);
    var st := ApplyEntries(PassState(rows, nextId, {}), snap, entries, now).value;
    var out := Pass(rows, nextId, entries, now);
    ApplyEntriesCounts(rows, nextId, snap, entries, now);
    ApplyEntriesOldRows(rows, nextId, snap, entries, now);
    ApplyEntriesNewRows(rows, nextId, snap, entries, now);
    ApplyEntriesNewIdsDistinct(rows, nextId, snap, entries, now);
    SweepShape(st.rows, snap.order, st.seen, now);
    PassKeepsHistoryAndTriage(rows, nextId, entries, now);
    forall i | 0 <= i < |rows| && IsOpen(out.rows[i]) ensures IsOpen(rows[i]) && out.rows[i].jobApiId in OpenJobIds(rows) {
      RowAfterKeeps(rows[i], snap, entries, now);
    }
    forall a | |rows| <= a < |out.rows| ensures out.rows[a].jobApiId !in OpenJobIds(rows) {
    }
    assert AtMostOneOpen(out.rows) by {
      forall a, b | 0 <= a < |out.rows| && 0 <= b < |out.rows| && IsOpen(out.rows[a]) && IsOpen(out.rows[b])
                    && out.rows[a].jobApiId == out.rows[b].jobApiId
        ensures a == b
      {
        if a < |rows| && b < |rows| {
          assert IsOpen(rows[a]) && IsOpen(rows[b]);
        }
      }
    }
  }
}
