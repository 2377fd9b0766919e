/**
 * The ledger invariant under any interleaving of engine runs and human
 * triage: one open incident per job and primary keys below the id
 * sequence hold after every sequence of steps, provided each payload the
 * engine works on names each job at most once.  Without that proviso one
 * pass can open two incidents for the same job.
 */
module Invariants {
  import opened Wrappers
  import opened Ledger
  import opened Reconcile
  import Scheduler
  import opened Triage
  import Text

  /** The parts of the database the invariant speaks about. */
  datatype Db = Db(rows: seq<Incident>, nextId: nat, engineers: seq<Engineer>)

  /** One thing that can happen to the ledger. */
  datatype Action =
      /** A scheduled or manual engine run; `payload` is what it works on (None: cache miss and fetch error). */
    | EngineRun(payload: Option<seq<Entry>>, now: Time)
    | RespondTo(incidentId: int, engineerId: Option<int>, priority: Option<string>,
                incNumber: Option<string>, incLink: Option<string>, now: Time)
    | Reprioritise(incidentId: int, priority: Option<string>)
    | Relink(incidentId: int, incNumber: Option<string>, incLink: Option<string>)
    | Resolve(incidentId: int, now: Time)
    | RemoveResponder(deleted: int)

  function Step(db: Db, a: Action): Db {
    match a
    case EngineRun(payload, now) =>
      (match Scheduler.LedgerOutcome(db.rows, db.nextId, payload, now)
       case RolledBack => db
       case Committed(rows, nextId) => db.(rows := rows, nextId := nextId))
    case RespondTo(id, e, p, n, l, now) => db.(rows := Respond(db.rows, id, e, p, n, l, now))
    case Reprioritise(id, p) => db.(rows := SetPriority(db.rows, id, p))
    case Relink(id, n, l) => db.(rows := SetIncLink(db.rows, id, n, l))
    case Resolve(id, now) => db.(rows := ManualResolve(db.rows, id, now))
    case RemoveResponder(e) => db.(rows := Unassign(db.rows, e), engineers := RemoveEngineer(db.engineers, e))
  }

  /** The actions applied in order. */
  function Run(db: Db, actions: seq<Action>): Db
    decreases |actions|
  {
    if actions == [] then db else Step(Run(db, actions[..|actions| - 1]), actions[|actions| - 1])
  }

  /** An engine run whose payload names each job at most once. */
  ghost predicate Admissible(a: Action) {
    a.EngineRun? && a.payload.Some? ==> DistinctIds(a.payload.value)
  }

  ghost predicate Valid(db: Db) {
    Consistent(db.rows, db.nextId)
  }

  lemma StepPreservesConsistency(db: Db, a: Action)
    requires Valid(db) && Admissible(a)
    ensures Valid(Step(db, a))
  {
    match a
    case EngineRun(payload, now) =>
      if payload.Some? && payload.value != [] && Pass(db.rows, db.nextId, payload.value, now).Committed? {
        PassPreservesConsistency(db.rows, db.nextId, payload.value, now);
      }
    case RespondTo(id, e, p, n, l, now) =>
      TriagePreservesConsistency(db.rows, db.nextId, id, e, p, n, l, 0, now);
    case Reprioritise(id, p) =>
      TriagePreservesConsistency(db.rows, db.nextId, id, None, p, None, None, 0, 0);
    case Relink(id, n, l) =>
      TriagePreservesConsistency(db.rows, db.nextId, id, None, None, n, l, 0, 0);
    case Resolve(id, now) =>
      TriagePreservesConsistency(db.rows, db.nextId, id, None, None, None, None, 0, now);
    case RemoveResponder(e) =>
      TriagePreservesConsistency(db.rows, db.nextId, 0, None, None, None, None, e, 0);
  }

  /** Any interleaving of admissible engine runs and triage edits keeps the ledger consistent. */
  lemma {:induction false} RunPreservesConsistency(db: Db, actions: seq<Action>)
    requires Valid(db)
    requires forall i :: 0 <= i < |actions| ==> Admissible(actions[i])
    ensures Valid(Run(db, actions))
    decreases |actions|
  {
    if actions != [] {
      RunPreservesConsistency(db, actions[..|actions| - 1]);
      StepPreservesConsistency(Run(db, actions[..|actions| - 1]), actions[|actions| - 1]);
    }
  }

  /**
   * The proviso is needed: a payload that reports the same failing job
   * twice, against an empty ledger, makes one pass open two incidents for it.
   */
  lemma DuplicateReportOpensTwice(now: Time)
    ensures var e := JobRecord(Some("job"), Some("nightly"), Some("ERROR"), None);
      var out := Pass([], 1, [e, e], now);
      && out.Committed?
      && |out.rows| == 2
      && IsOpen(out.rows[0]) && IsOpen(out.rows[1])
      && out.rows[0].jobApiId == out.rows[1].jobApiId
      && !AtMostOneOpen(out.rows)
  {
    var e := JobRecord(Some("job"), Some("nightly"), Some("ERROR"), None);
    var snap := TakeSnapshot([]);
    assert snap == Snapshot([], map[]);
    var st0 := PassState([], 1, {});
    var st1 := PassState([NewIncident(1, "job", "nightly", "ERROR", None, now)], 2, {"job"});
    var st2 := PassState(st1.rows + [NewIncident(2, "job", "nightly", "ERROR", None, now)], 3, {"job"});
    assert Text.Present(Some("job")) && Text.Present(Some("nightly")) && Text.Present(Some("ERROR"));
    assert IsActiveStatus("ERROR") && "job" !in snap.status;
    assert st0.rows + [NewIncident(1, "job", "nightly", "ERROR", None, now)] == st1.rows;
    assert st0.seen + {"job"} == st1.seen;
    assert ApplyEntry(st0, snap, e, now) == Some(st1);
    assert ApplyEntry(st1, snap, e, now) == Some(st2);
    assert [e][..0] == [] && [e, e][..1] == [e];
    assert ApplyEntries(st0, snap, [e], now) == Some(st1);
    assert ApplyEntries(st0, snap, [e, e], now) == Some(st2);
  }
}
