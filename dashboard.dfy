/**
 * The dashboard's read side: the open-incident list with its urgency
 * ordering, the pending/work-in-progress split, and the week window with
 * the Monday-to-Friday chart of detections.
 */
module Dashboard {
  import opened Wrappers
  import opened Ledger

  // ---------------------------------------------------------------------
  // The active list
  // ---------------------------------------------------------------------

  /** An open incident joined with its responder's name (NULL when unassigned or dangling). */
  datatype ActiveRow = ActiveRow(incident: Incident, responderName: Option<string>)

  /** The LEFT JOIN on `engineers.id`, a primary key: the name of the engineer with that id, if any. */
  function NameOf(engineers: seq<Engineer>, id: Option<int>): (name: Option<string>)
    ensures name.Some? <==> id.Some? && exists k :: 0 <= k < |engineers| && engineers[k].id == id.value
    ensures name.Some? ==> exists k :: 0 <= k < |engineers| && engineers[k].id == id.value && engineers[k].name == name.value
                                     && forall j :: 0 <= j < k ==> engineers[j].id != id.value
    decreases |engineers|
  {
    if id.None? || engineers == [] then None
    else if engineers[0].id == id.value then Some(engineers[0].name)
    else
      var tail := engineers[1..];
      var rest := NameOf(tail, id);
      assert rest.Some? ==> exists k :: 0 <= k < |engineers| && engineers[k].id == id.value && engineers[k].name == rest.value
                                      && forall j :: 0 <= j < k ==> engineers[j].id != id.value
      by {
        if rest.Some? {
          var k :| 0 <= k < |tail| && tail[k].id == id.value && tail[k].name == rest.value
                   && forall j :: 0 <= j < k ==> tail[j].id != id.value;
          assert engineers[k + 1] == tail[k];
          forall j | 0 <= j < k + 1 ensures engineers[j].id != id.value {
            if j > 0 {
              assert engineers[j] == tail[j - 1];
            }
          }
        }
      }
      rest
  }

  /** The ORDER BY's first key: CRITICAL, ERROR, WARNING, then everything else. */
  function Rank(status: string): nat {
    if status == "CRITICAL" then 1
    else if status == "ERROR" then 2
    else if status == "WARNING" then 3
    else 4
  }

  /** `a` may be listed before `b`: more severe, or as severe and detected no later. */
  predicate NoLaterThan(a: ActiveRow, b: ActiveRow) {
    || Rank(a.incident.status) < Rank(b.incident.status)
    || (Rank(a.incident.status) == Rank(b.incident.status)
        && a.incident.firstDetectedAt <= b.incident.firstDetectedAt)
  }

  predicate Ordered(s: seq<ActiveRow>) {
    forall i, j :: 0 <= i < j < |s| ==> NoLaterThan(s[i], s[j])
  }

  /** The WHERE and the join: every open row with its responder's name, in table order. */
  function OpenRows(rows: seq<Incident>, engineers: seq<Engineer>): seq<ActiveRow>
    decreases |rows|
  {
    if rows == [] then []
    else
      var rest := OpenRows(rows[1..], engineers);
      if IsOpen(rows[0]) then [ActiveRow(rows[0], NameOf(engineers, rows[0].responderId))] + rest else rest
  }

  lemma {:induction false} OpenRowsMembers(rows: seq<Incident>, engineers: seq<Engineer>)
    ensures forall x :: x in OpenRows(rows, engineers) <==>
      x.incident in rows && IsOpen(x.incident) && x.responderName == NameOf(engineers, x.incident.responderId)
    decreases |rows|
  {
    if rows != [] {
      OpenRowsMembers(rows[1..], engineers);
      assert rows == [rows[0]] + rows[1..];
    }
  }

  /** Place `x` in front of the first row that must come after it. */
  function Insert(x: ActiveRow, s: seq<ActiveRow>): seq<ActiveRow>
    decreases |s|
  {
    if s == [] then [x]
    else if NoLaterThan(x, s[0]) then [x] + s
    else [s[0]] + Insert(x, s[1..])
  }

  function SortByUrgency(s: seq<ActiveRow>): seq<ActiveRow>
    decreases |s|
  {
    if s == [] then [] else Insert(s[0], SortByUrgency(s[1..]))
  }

  lemma NoLaterThanTotal(a: ActiveRow, b: ActiveRow)
    ensures NoLaterThan(a, b) || NoLaterThan(b, a)
  {
  }

  lemma NoLaterThanTransitive(a: ActiveRow, b: ActiveRow, c: ActiveRow)
    requires NoLaterThan(a, b) && NoLaterThan(b, c)
    ensures NoLaterThan(a, c)
  {
  }

  /** Putting a row before an ordered list it precedes keeps the list ordered. */
  lemma OrderedCons(y: ActiveRow, t: seq<ActiveRow>)
    requires Ordered(t)
    requires forall k :: 0 <= k < |t| ==> NoLaterThan(y, t[k])
    ensures Ordered([y] + t)
  {
    var u := [y] + t;
    forall i, j | 0 <= i < j < |u| ensures NoLaterThan(u[i], u[j]) {
      assert u[j] == t[j - 1];
      if i > 0 {
        assert u[i] == t[i - 1];
      }
    }
  }

  lemma OrderedTail(s: seq<ActiveRow>)
    requires Ordered(s) && s != []
    ensures Ordered(s[1..])
  {
    var rest := s[1..];
    forall i, j | 0 <= i < j < |rest| ensures NoLaterThan(rest[i], rest[j]) {
      assert rest[i] == s[i + 1] && rest[j] == s[j + 1];
    }
  }

  /** The head of an ordered list precedes every row of a permutation of `x` and its tail. */
  lemma HeadPrecedes(x: ActiveRow, s: seq<ActiveRow>, t: seq<ActiveRow>)
    requires Ordered(s) && s != [] && NoLaterThan(s[0], x)
    requires multiset(t) == multiset([x] + s[1..])
    ensures forall k :: 0 <= k < |t| ==> NoLaterThan(s[0], t[k])
  {
    forall k | 0 <= k < |t| ensures NoLaterThan(s[0], t[k]) {
      assert t[k] in multiset([x] + s[1..]);
      if t[k] != x {
        assert t[k] in s[1..];
        var j :| 0 <= j < |s[1..]| && s[1..][j] == t[k];
        assert s[j + 1] == t[k];
      }
    }
  }

  lemma {:induction false} InsertSpec(x: ActiveRow, s: seq<ActiveRow>)
    requires Ordered(s)
    ensures Ordered(Insert(x, s))
    ensures multiset(Insert(x, s)) == multiset([x] + s)
    decreases |s|
  {
    if s == [] {
    } else if NoLaterThan(x, s[0]) {
      forall k | 0 <= k < |s| ensures NoLaterThan(x, s[k]) {
        if k > 0 {
          NoLaterThanTransitive(x, s[0], s[k]);
        }
      }
      OrderedCons(x, s);
    } else {
      NoLaterThanTotal(x, s[0]);
      OrderedTail(s);
      InsertSpec(x, s[1..]);
      var t := Insert(x, s[1..]);
      HeadPrecedes(x, s, t);
      OrderedCons(s[0], t);
      assert s == [s[0]] + s[1..];
      assert multiset([s[0]] + t) == multiset([s[0]]) + multiset(t);
    }
  }

  lemma {:induction false} SortByUrgencySpec(s: seq<ActiveRow>)
    ensures Ordered(SortByUrgency(s))
    ensures multiset(SortByUrgency(s)) == multiset(s)
    decreases |s|
  {
    if s != [] {
      SortByUrgencySpec(s[1..]);
      InsertSpec(s[0], SortByUrgency(s[1..]));
      assert s == [s[0]] + s[1..];
    }
  }

  /** `get_active_incidents`: the open rows, most severe first, oldest first within a severity. */
  function ActiveIncidents(rows: seq<Incident>, engineers: seq<Engineer>): seq<ActiveRow> {
    SortByUrgency(OpenRows(rows, engineers))
  }

  /**
   * The active list holds exactly the open incidents, each once per table
   * row, each with the responder name the join gives, ordered by severity
   * rank and then by detection time.
   */
  lemma ActiveIncidentsSpec(rows: seq<Incident>, engineers: seq<Engineer>)
    ensures var a := ActiveIncidents(rows, engineers);
      && Ordered(a)
      && multiset(a) == multiset(OpenRows(rows, engineers))
      && (forall x :: x in a <==>
            x.incident in rows && IsOpen(x.incident) && x.responderName == NameOf(engineers, x.incident.responderId))
  {
    SortByUrgencySpec(OpenRows(rows, engineers));
    OpenRowsMembers(rows, engineers);
    var a := ActiveIncidents(rows, engineers);
    forall x ensures x in a <==> x in OpenRows(rows, engineers) {
      assert x in a <==> x in multiset(a);
    }
  }

  // ---------------------------------------------------------------------
  // The pending / work-in-progress split
  // ---------------------------------------------------------------------

  /** Rows without a responder name, in list order. */
  function Pending(s: seq<ActiveRow>): seq<ActiveRow>
    decreases |s|
  {
    if s == [] then []
    else (if s[0].responderName.None? then [s[0]] else []) + Pending(s[1..])
  }

  /** Rows with a responder name, in list order. */
  function InProgress(s: seq<ActiveRow>): seq<ActiveRow>
    decreases |s|
  {
    if s == [] then []
    else (if s[0].responderName.Some? then [s[0]] else []) + InProgress(s[1..])
  }

  /** The split loses and duplicates nothing: the issue count is the pending count plus the responded count. */
  lemma {:induction false} SplitCounts(s: seq<ActiveRow>)
    ensures |s| == |Pending(s)| + |InProgress(s)|
    ensures multiset(Pending(s)) + multiset(InProgress(s)) == multiset(s)
    decreases |s|
  {
    if s != [] {
      SplitCounts(s[1..]);
      assert s == [s[0]] + s[1..];
    }
  }

  /** A row is pending exactly when it has no responder name, in progress exactly when it has one. */
  lemma {:induction false} SplitMembers(s: seq<ActiveRow>)
    ensures forall x :: x in Pending(s) <==> x in s && x.responderName.None?
    ensures forall x :: x in InProgress(s) <==> x in s && x.responderName.Some?
    decreases |s|
  {
    if s != [] {
      SplitMembers(s[1..]);
      assert s == [s[0]] + s[1..];
    }
  }

  /** Both lists keep the urgency order of the active list. */
  lemma {:induction false} SplitKeepsOrder(s: seq<ActiveRow>)
    requires Ordered(s)
    ensures Ordered(Pending(s)) && Ordered(InProgress(s))
    decreases |s|
  {
    if s != [] {
      var rest := s[1..];
      assert Ordered(rest) by {
        forall i, j | 0 <= i < j < |rest| ensures NoLaterThan(rest[i], rest[j]) {
          assert rest[i] == s[i + 1] && rest[j] == s[j + 1];
        }
      }
      SplitKeepsOrder(rest);
      SplitMembers(rest);
      forall x | x in rest ensures NoLaterThan(s[0], x) {
        var j :| 0 <= j < |rest| && rest[j] == x;
        assert s[j + 1] == x;
      }
      var p, w := Pending(rest), InProgress(rest);
      if s[0].responderName.None? {
        forall k | 0 <= k < |p| ensures NoLaterThan(s[0], p[k]) {
          assert p[k] in p;
        }
        OrderedCons(s[0], p);
      } else {
        forall k | 0 <= k < |w| ensures NoLaterThan(s[0], w[k]) {
          assert w[k] in w;
        }
        OrderedCons(s[0], w);
      }
    }
  }

  /** Every open row of the table is on the active list with the name the join gives it. */
  lemma OpenRowListed(rows: seq<Incident>, r: Incident, engineers: seq<Engineer>)
    requires r in rows && IsOpen(r)
    ensures ActiveRow(r, NameOf(engineers, r.responderId)) in ActiveIncidents(rows, engineers)
  {
    var x := ActiveRow(r, NameOf(engineers, r.responderId));
    OpenRowsMembers(rows, engineers);
    assert x in OpenRows(rows, engineers);
    SortByUrgencySpec(OpenRows(rows, engineers));
    assert x in multiset(ActiveIncidents(rows, engineers));
  }

  /**
   * An open incident whose responder was deleted joins to no name, and so
   * appears in the pending half of the active list.
   */
  lemma {:induction false} DeletedResponderIsPending(rows: seq<Incident>, r: Incident, engineers: seq<Engineer>, deleted: int)
    requires r in rows && IsOpen(r)
    requires r.responderId == Some(deleted)
    requires forall k :: 0 <= k < |engineers| ==> engineers[k].id != deleted
    ensures NameOf(engineers, r.responderId).None?
    ensures ActiveRow(r, None) in Pending(ActiveIncidents(rows, engineers))
  {
    var a := ActiveIncidents(rows, engineers);
    OpenRowListed(rows, r, engineers);
    SplitMembers(a);
  }

  // ---------------------------------------------------------------------
  // The week window and the chart
  // ---------------------------------------------------------------------

  const SecondsPerDay: int := 86400

  /** Calendar day of an instant, counted from 1970-01-01 (a Thursday). */
  function DayOf(t: Time): int {
    t / SecondsPerDay
  }

  /** Python's `date.weekday()`: Monday is 0 and Sunday is 6. */
  function Weekday(day: int): int {
    (day + 3) % 7
  }

  /** `start_of_week`: today minus its weekday. */
  function WeekStart(today: int): (start: int)
    ensures Weekday(start) == 0
    ensures start <= today <= start + 6
  {
    today - Weekday(today)
  }

  /** Weekdays advance one per day across a week that starts on a Monday. */
  lemma WeekdayOfWeek(start: int, i: int)
    requires Weekday(start) == 0 && 0 <= i < 7
    ensures Weekday(start + i) == i
  {
    assert (start + 3) % 7 == 0;
    assert start + 3 == 7 * ((start + 3) / 7);
    assert start + i + 3 == 7 * ((start + 3) / 7) + i;
  }

  /** `strftime("%a")` of a day. */
  function DayAbbrev(day: int): string {
    ["Mon", "Tue", "Wed", "Thu", "Fri", "Sat", "Sun"][Weekday(day)]
  }

  /** The count the grouped query reported for a day: the last pair naming it, if any. */
  function LastCount(raw: seq<(int, nat)>, day: int): Option<nat>
    decreases |raw|
  {
    if raw == [] then None
    else if raw[|raw| - 1].0 == day then Some(raw[|raw| - 1].1)
    else LastCount(raw[..|raw| - 1], day)
  }

  /** `LastCount` finds nothing exactly when no pair names the day. */
  lemma {:induction false} LastCountAbsent(raw: seq<(int, nat)>, day: int)
    ensures LastCount(raw, day).None? <==> forall j :: 0 <= j < |raw| ==> raw[j].0 != day
    decreases |raw|
  {
    if raw != [] {
      var front := raw[..|raw| - 1];
      LastCountAbsent(front, day);
      assert forall j :: 0 <= j < |front| ==> front[j] == raw[j];
    }
  }

  /** `LastCount` finds the last pair for the day, and nothing when there is none. */
  lemma {:induction false} LastCountIsLastReport(raw: seq<(int, nat)>, day: int)
    ensures LastCount(raw, day).None? <==> forall j :: 0 <= j < |raw| ==> raw[j].0 != day
    ensures LastCount(raw, day).Some? ==>
      exists j :: 0 <= j < |raw| && raw[j] == (day, LastCount(raw, day).value)
        && forall k :: j < k < |raw| ==> raw[k].0 != day
    decreases |raw|
  {
    LastCountAbsent(raw, day);
    if raw != [] && raw[|raw| - 1].0 != day && LastCount(raw, day).Some? {
      var front := raw[..|raw| - 1];
      LastCountIsLastReport(front, day);
      var j :| 0 <= j < |front| && front[j] == (day, LastCount(front, day).value)
               && forall k :: j < k < |front| ==> front[k].0 != day;
      assert raw[j] == front[j];
      assert forall k :: j < k < |raw| - 1 ==> raw[k] == front[k];
    }
  }

  /**
   * The week statistics' day counts and chart: `counts` maps each of the
   * seven days of this week (and any other day the query reported) to its
   * count, zero for a day without detections; the chart has five labels,
   * Mon to Fri, and the five matching counts.
   */
  method WeekChart(now: Time, raw: seq<(int, nat)>)
    returns (start: int, counts: map<int, nat>, labels: seq<string>, data: seq<nat>)
    ensures start == WeekStart(DayOf(now)) && Weekday(start) == 0
    ensures forall d :: start <= d < start + 7 ==> d in counts
    ensures forall d :: d in counts ==> counts[d] == LastCount(raw, d).GetOr(0)
    ensures labels == ["Mon", "Tue", "Wed", "Thu", "Fri"]
    ensures |data| == 5
    ensures forall i :: 0 <= i < 5 ==> data[i] == LastCount(raw, start + i).GetOr(0)
  {
    var today := DayOf(now);
    start := WeekStart(today);
    counts := map[];
    for i := 0 to 7
      invariant forall d :: start <= d < start + i ==> d in counts
      invariant forall d :: d in counts ==> counts[d] == 0
    {
      counts := counts[start + i := 0];
    }
    for k := 0 to |raw|
      invariant forall d :: start <= d < start + 7 ==> d in counts
      invariant forall d :: d in counts ==> counts[d] == LastCount(raw[..k], d).GetOr(0)
    {
      assert raw[..k + 1][..k] == raw[..k];
      assert raw[..k + 1][k] == raw[k];
      counts := counts[raw[k].0 := raw[k].1];
    }
    assert raw[..|raw|] == raw;
    labels, data := [], [];
    for i := 0 to 5
      invariant |labels| == i && |data| == i
      invariant labels == ["Mon", "Tue", "Wed", "Thu", "Fri"][..i]
      invariant forall j :: 0 <= j < i ==> data[j] == LastCount(raw, start + j).GetOr(0)
    {
      WeekdayOfWeek(start, i);
      labels := labels + [DayAbbrev(start + i)];
      data := data + [if start + i in counts then counts[start + i] else 0];
    }
  }
}
