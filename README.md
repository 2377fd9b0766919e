# fic-dashboard core, modelled in Dafny

fic-dashboard is an on-call dashboard for failing batch jobs. It has three parts, and this project models each one.

- **Reconciliation engine** (`scheduler.py`). A scheduled run takes the job statuses reported by an HTTP API, through a 25-second response cache. It reconciles them against the `incidents` ledger:
  - it opens incidents for failing jobs;
  - it refreshes open incidents;
  - it resolves incidents whose job reports OK or LOG;
  - it resolves incidents that have gone unreported for more than 120 seconds.

  It then commits and rewrites the last-refresh marker. On any error it rolls back. It keeps a process-wide error record for fetch failures.
- **Human triage and the read side** (`app.py`).
  - Triage: responding to an incident, editing its priority and incident reference, resolving it by hand, and deleting an engineer.
  - Manual refresh.
  - The read side: the ordered list of open incidents, its pending/in-progress split, and the Monday-based week chart.
- **Dependency scanner** (`process_deps.py`).
  - It turns Python import statements into strings, then resolves those strings back to project files or external module names.
  - It finds the Python scripts that a bash job runs, tracking `cd`.
  - It builds the agenda of files to parse and records the import links.

Model conventions:

- Time is whole seconds (`int`). Days are day numbers counted from 1970-01-01.
- The database tables are sequences of records held in the `Ledger.Store` class.
- A transaction computes a new sequence, then either assigns it (commit) or drops it (rollback).
- The HTTP response, the clock, file contents, the Python syntax tree and `shlex` tokens are all parameters.

The imperative parts are methods (with loops where the source loops), each proved equal to a specification function. Lemmas about those functions state the promised properties:

- the engine's `Scheduler.Engine.FetchAndUpdate` and its two loops;
- the triage handlers in `App`;
- `Dashboard.WeekChart`;
- the collector class `Imports.ImportCollector`;
- `Bash.ParseBashInvocations`;
- the agenda methods in `Agenda`.

`Invariants.RunPreservesConsistency` ties the engine and triage together. Take any interleaving of engine runs and triage edits, where each engine payload names each job at most once. After it, every job still has at most one open incident, and every key is below the id sequence. `Invariants.DuplicateReportOpensTwice` shows that the proviso is needed. The open-incident map is built once per pass, so a payload that reports the same failing job twice opens two incidents for it.

Where the system's documented behaviour and the code differ, the model follows the code:

- Only a resolution by an OK/LOG report backfills `responded_at`. The grace-period resolution (scheduler.py:283-289) and the manual resolve (app.py:559-562) write only `resolved_at`.
- A record whose status is not one of CRITICAL, ERROR, WARNING, OK or LOG still counts as reported. It is added to the seen set, so the sweep will not resolve its incident. It changes no row (scheduler.py:179-183, 237).
- Clock reads:
  - The marker written after a pass carries the pass's `now`. The code reads the clock again at that point.
  - The manual refresh's own marker rewrite uses the same `now`.

## Model

| member | source | states |
|---|---|---|
| Ledger.Store.WriteRefreshMarker | scheduler.py:48-75 | the upsert sets the last-refresh marker to the given time; incidents, the id sequence and the engineers are unchanged |
| Reconcile.TakeSnapshot | scheduler.py:154-161 | the snapshot's keys are exactly the job ids of the open rows, and its key order lists each of them once |
| Reconcile.SnapshotStatusOfOpenRow | scheduler.py:154-161 | with at most one open row per job, the snapshot maps that row's job id to that row's status |
| Reconcile.RowAfterKeeps | scheduler.py:185-258 | the payload walk keeps every triage column of an existing row, never touches a resolved row and never reopens one |
| Reconcile.RowAfterUnreported | scheduler.py:165-179 | a row whose job has no complete record in the payload is untouched by the walk |
| Reconcile.RowAfterSingleReport | scheduler.py:165-258 | when job ids in the payload are distinct, an existing row is changed only by the one record that names its job |
| Reconcile.ApplyEntriesFails | scheduler.py:165-171 | the walk fails exactly when some payload element is not an object, because reading its keys raises |
| Reconcile.ApplyEntriesCounts | scheduler.py:173-236 | the walk only appends rows, the id sequence advances by the number of inserted rows, and the seen set is exactly the ids of the complete records |
| Reconcile.ApplyEntriesOldRows | scheduler.py:185-258 | each pre-existing row ends as the composition of the effects of the payload records, in order |
| Reconcile.ApplyEntriesNewRows | scheduler.py:207-236 | each appended row is an INSERT for a job reported with an active status and absent from the snapshot, numbered from the id sequence |
| Reconcile.ApplyEntriesNewIdsDistinct | scheduler.py:154-236 | when payload ids are distinct, the rows one pass inserts have distinct job ids |
| Reconcile.LastSeenOfOnlyOpenRow | scheduler.py:271-275 | with one open row for the job, the sweep's lookup returns that row's `last_api_update` |
| Reconcile.SweepShape | scheduler.py:266-297 | the sweep resolves exactly the open rows of snapshot jobs that are unseen and whose last report is more than 120 s old (strictly), writing only `resolved_at` |
| Reconcile.PassRollsBackIff | scheduler.py:150-310 | a pass rolls back exactly when a payload element raises, and commits otherwise |
| Reconcile.PassKeepsHistoryAndTriage | scheduler.py:185-297 | a committed pass keeps every existing row, leaves resolved rows as they were, and keeps triage columns on every row |
| Reconcile.PassInsertsFreshIncidents | scheduler.py:207-236 | rows a pass adds are numbered consecutively from the sequence; each belongs to a reported job with an active status and no open incident; each is detected and last updated `now`, open, and without triage |
| Reconcile.PassOnReportedIncident | scheduler.py:183-258 | for an open incident reported once: an active status rewrites status, `log_url` and `last_api_update`; OK/LOG resolves it now with that status, backfilling `responded_at` from `first_detected_at`; any other status leaves it as it was |
| Reconcile.PassOnSilentIncident | scheduler.py:266-297 | an open incident not reported is resolved now when its last report is more than 120 s old, and otherwise untouched |
| Reconcile.PassPreservesConsistency | scheduler.py:154-297 | a committed pass over a payload with distinct job ids keeps one open row per job and keys below the sequence |
| Scheduler.RunPayload | scheduler.py:94-141 | the cached payload is used only when it is non-empty and fetched less than 25 s ago (strictly); otherwise the fetched payload is used; there is no payload exactly when the cache is stale and the URL is missing or the fetch failed |
| Scheduler.WalkPayload | scheduler.py:163-258 | the loop over the payload reports failure exactly when an element is not an object; otherwise its rows, id sequence and seen set are those of the specification walk |
| Scheduler.SweepUnreported | scheduler.py:266-297 | the loop over the snapshot keys yields the specification sweep |
| Scheduler.Engine.FetchAndUpdate | scheduler.py:91-312 | a fresh cache leaves the cache and error record alone; a missing URL or a failed fetch sets the error flag, message and time and changes neither the cache nor the ledger; a successful fetch stores the payload with `now` and clears flag and message but keeps the error time; the ledger and marker change only when a pass commits, and then they are the pass's rows, its sequence and `now` |
| Triage.RespondEffect | app.py:471-492 | a response needs both an engineer and a non-empty priority; it changes only the addressed row, and only while that row has no response; it writes responder, priority, `responded_at = now`, incident number and link, and nothing else |
| Triage.RespondIsOneShot | app.py:476-492 | once a response is recorded, any later response to the same incident changes nothing |
| Triage.SetPriorityEffect | app.py:506-513 | a priority edit writes only `priority`, only on the addressed row, only when a non-empty priority is given |
| Triage.SetIncLinkEffect | app.py:526-542 | a link edit writes only the submitted non-empty columns among `inc_number` and `inc_link`, only on the addressed row; nothing when neither is given |
| Triage.ManualResolveEffect | app.py:559-562 | a manual resolve writes only `resolved_at = now` on the addressed row, overwriting an earlier resolution, and never opens an incident |
| Triage.DeleteEngineerDereferences | app.py:452-456 | after a deletion no incident refers to the engineer, incidents lose only that reference, and the engineers left are exactly the others |
| Triage.TriagePreservesConsistency | app.py:452-562 | every triage edit keeps one open row per job and keys below the sequence |
| App.RespondIncident | app.py:461-493 | the handler leaves the ledger as `Triage.Respond` describes it, and changes nothing else in the store |
| App.UpdateIncidentPriority | app.py:496-513 | the handler leaves the ledger as `Triage.SetPriority` describes it, and changes nothing else in the store |
| App.UpdateIncLink | app.py:516-543 | the handler leaves the ledger as `Triage.SetIncLink` describes it, and changes nothing else in the store |
| App.ResolveIncident | app.py:546-564 | the handler leaves the ledger as `Triage.ManualResolve` describes it, and changes nothing else in the store |
| App.DeleteEngineer | app.py:440-458 | the handler applies the de-referencing UPDATE and the DELETE; the id sequence and marker are unchanged |
| App.RefreshData | app.py:400-412 | a manual refresh runs one engine pass, so the ledger and the engine's cache and error record change exactly as that pass changes them; it then writes the marker unconditionally, so the marker reads `now` even when the pass failed |
| Dashboard.NameOf | app.py:109-114 | the join yields a name exactly when the incident has a responder id that some engineer row carries, and that name is the `name` of the engineer row with that id |
| Dashboard.OpenRowsMembers | app.py:113-115 | the unsorted list holds exactly the open rows, each with its joined responder name |
| Dashboard.InsertSpec | app.py:116-123 | inserting into an ordered list keeps it ordered and adds exactly the one row |
| Dashboard.SortByUrgencySpec | app.py:116-123 | the sort is ordered by status rank (CRITICAL, ERROR, WARNING, other) then `first_detected_at`, and is a permutation |
| Dashboard.ActiveIncidentsSpec | app.py:89-145 | the active list is ordered, is a permutation of the open rows, and holds exactly the open incidents with their responder names |
| Dashboard.SplitCounts | app.py:341-354 | pending and in-progress partition the active list: their counts add up to the issue count, and their multisets to the list |
| Dashboard.SplitMembers | app.py:341-350 | pending holds exactly the rows without a responder name, and in-progress those with one |
| Dashboard.SplitKeepsOrder | app.py:341-350 | both halves of the split keep the urgency order |
| Dashboard.DeletedResponderIsPending | app.py:340-350 | an open incident whose responder has no engineer row gets no name, and is in the pending half of the active list |
| Dashboard.WeekStart | app.py:162-164 | the week start is a Monday, no later than today and at most six days earlier |
| Dashboard.WeekdayOfWeek | app.py:176-190 | the days of a week that starts on a Monday run Monday (0) to Sunday (6) |
| Dashboard.LastCountIsLastReport | app.py:180-182 | a day's count is the last one the grouped query reported for it, or absent when none was |
| Dashboard.WeekChart | app.py:162-190 | the week starts on the Monday of today's week; each of its seven days has a count, defaulting to 0; the chart has the five labels Mon to Fri and those days' counts |
| Invariants.StepPreservesConsistency | scheduler.py:78-312 | any single engine run with distinct payload ids, and any triage action, keeps one open row per job and keys below the sequence |
| Invariants.RunPreservesConsistency | app.py:400-562 | any interleaving of such engine runs and triage actions keeps the ledger invariant |
| Invariants.DuplicateReportOpensTwice | scheduler.py:154-236 | a payload that reports one failing job twice against an empty ledger opens two incidents for that job |
| Text.SplitJoin | process_deps.py:351 | splitting on a separator loses nothing: joining the pieces gives back the string |
| Text.SplitPiecesFree | process_deps.py:376 | no piece of a split contains the separator |
| Text.LeadingCount | process_deps.py:345 | the count of leading characters is at most the length, every counted character is that character, and the next one is not |
| Text.Strip | process_deps.py:225 | the stripped line begins and ends with a non-space character, or is empty |
| Text.Words | process_deps.py:250 | the whitespace split yields non-empty words without spaces, and at least one word for a line that starts with a non-space |
| Text.StripIsTrimmedSlice | process_deps.py:225 | the stripped line is a slice of the line with only whitespace before and after it, so with `Text.Strip` it is the line minus its leading and trailing whitespace |
| Text.WordsConcat | process_deps.py:250 | the words of the whitespace split, glued together, are the line with its whitespace removed |
| Text.WordsCount | process_deps.py:250 | the whitespace split yields one word per position where a run of non-whitespace starts |
| Paths.UpIsPrefix | process_deps.py:347-349 | walking up `n` parents drops the last `n` names, stopping at the root, and takes none for `n <= 0` |
| Paths.JoinNormal | process_deps.py:319-337 | joining a string onto a resolved path and resolving gives a resolved path |
| Paths.JoinName | process_deps.py:323-334 | joining a plain name descends into it |
| Imports.ImportCollector.VisitImport | process_deps.py:36-39 | the collector's set grows by exactly the imported names; a repeated name is recorded once |
| Imports.ImportCollector.VisitImportFrom | process_deps.py:41-68 | the set grows by exactly the tags of the statement: one module tag, one name tag per alias, or the absolute module |
| Imports.FindModuleFile | process_deps.py:319-337 | only project files are returned; `<parts>.py` wins over `<parts>/__init__.py`; `<parts>/__init__.py` is returned when it is a project file and `<parts>.py` is not; nothing is returned exactly when neither is a project file |
| Imports.FindInRoots | process_deps.py:374-382 | an absolute import resolves only to project files |
| Imports.FindInRootsNone | process_deps.py:374-382 | an absolute import is unresolved exactly when no project root holds it |
| Imports.FindInRootsFirst | process_deps.py:377-382 | a resolved absolute import is the module file found under the first project root that holds it; every earlier root misses |
| Imports.ResolveWith | process_deps.py:310-392 | a project resolution is a project file; only a name tag without its second colon fails to unpack; an unresolved absolute import is reported under its own name |
| Imports.ResolveCollectedModuleTag | process_deps.py:340-389 | with the level read from the leading dots, a collected `from <level dots><m> import …` is looked up in the importer's directory walked up `level - 1` parents, and reported under `m` when it is not a project file there |
| Imports.ResolveCollectedNameTag | process_deps.py:355-389 | under either level rule, a collected `from <level dots> import <alias>` is looked up as `alias` in the importer's directory walked up `level - 1` parents, and reported under `alias` when it is not a project file there |
| Imports.ModuleTagRoundTrip | process_deps.py:340-345 | a module tag read with leading dots gives back its level and module, and the fallback name is the module |
| Imports.ModuleTagLevelAsWritten | process_deps.py:344 | the scanner's level for a module tag is the real level plus the dots inside the module name, so it is right exactly when the module name has no dot |
| Imports.NameTagRoundTrip | process_deps.py:356-361 | a name tag decodes to exactly the level and alias it was built from, and the fallback name is the alias |
| Imports.CollectedRelativeTagsDecode | process_deps.py:340-361 | every tag collected for a relative import decodes to that import's level and module, or to its level and one of its aliases |
| Imports.UnresolvedModuleRecorded | process_deps.py:617-625 | an unresolved relative module is recorded as external exactly when its name is longer than one character |
| Imports.UnresolvedNameRecorded | process_deps.py:617-625 | an unresolved relative name is recorded under its alias when the alias passes the filter; `from . import *` never is |
| Imports.NestedRelativeModuleMisresolved | process_deps.py:340-354 | for `from .a.b import x` with `a/b.py` beside the importer, the scanner as written reports an external `a.b`, and leading-dot counting finds the project file |
| Bash.FirstScriptArg | process_deps.py:257-261 | the candidate is the first argument ending in `.py` that does not start with `-`; there is none exactly when no argument qualifies |
| Bash.PythonCandidate | process_deps.py:253-265 | a candidate always ends in `.py`; for python/python3 it is the first script argument after the command; for any other command, the candidate is the command itself exactly when it ends in `.py` |
| Bash.CommandGuardIsSuffix | process_deps.py:262-264 | the guard on a `.py` command (own name, contains `/`, or starts with `.`) always holds |
| Bash.UnderRoots | process_deps.py:286-299 | the root fallback returns the script under some root with every earlier root a miss, so the first root that has it; nothing exactly when no root has it |
| Bash.LocateScript | process_deps.py:267-303 | only project files are located; a script that is a project file under the working directory is found there first; absolute and `./`, `../` arguments are looked up only there; any other argument missing there is looked up under the project roots |
| Bash.StepLine | process_deps.py:224-303 | only `cd` lines move the working directory: a `cd` with a target moves to that target taken from the current directory, and one whose tokens cannot be had keeps it; `cd` and comment lines run no script; a command naming a script runs the script located for it from the current directory, and only such a command runs one; a script found is a project file |
| Bash.ScanCdThenCommand | process_deps.py:231-303 | after `cd d`, a command naming script `a` is found as `a` under `d` taken from the starting directory, when that is a project file |
| Bash.ScanFindsProjectFiles | process_deps.py:300-305 | every script a bash file is found to run is a project file |
| Bash.ScanWithoutCd | process_deps.py:220-303 | without `cd` lines, every line is resolved against the script's own directory |
| Bash.ParseBashInvocations | process_deps.py:198-307 | an unreadable script yields nothing; otherwise the loop's result is the scan from the script's directory, and it holds project files only |
| Agenda.BuildAgenda | process_deps.py:563-568 | the agenda starts with the job scripts, has no repeats, and holds exactly the job scripts and the project files |
| Agenda.LinkImports | process_deps.py:590-625 | one file's import loop records the links of the specification pass for the given level rule (`CountAllDots` as written), stopping at the first import that raises |
| Agenda.ProcessWellFormed | process_deps.py:570-625 | under either level rule, every recorded script link starts at an agenda file and ends at a project file with a node; every external link passes the name filter; every agenda file gets a node |
| Agenda.ProcessAgenda | process_deps.py:559-625 | the parse loop processes each agenda file exactly once, records the links of the specification pass for the given level rule, and gives every agenda file a node; with `CountAllDots` it is the loop of `main` as written |
| Agenda.NestedImportLinks | process_deps.py:596-625 | for `from .a.b import x` with `a/b.py` beside the importer, the pass as written records an external link to `a.b`, while reading the level from the leading dots records a script link to `a/b.py` |

## Findings

| source | as written | input that shows it | evidently intended | confidence | as-written member | corrected member |
|---|---|---|---|---|---|---|
| process_deps.py:344 | the level of a `RELATIVE_MODULE:` tag is the count of every dot in the rest of the tag, dots inside the module name included | `/proj/pkg/main.py` containing `from .sub.mod import x`, with `/proj/pkg/sub/mod.py` a project file: the tag is `RELATIVE_MODULE:.sub.mod`, the level read back is 2, the lookup runs in `/proj/sub/`, and the import is recorded as an external module `sub.mod` | the level is the number of leading dots (the `node.level` written at process_deps.py:54), so the lookup runs in `/proj/pkg/` and finds `sub/mod.py` | high (not executed) | Imports.ResolveImportAsWritten, Imports.ModuleTagLevelAsWritten, Imports.NestedRelativeModuleMisresolved, Agenda.NestedImportLinks | Imports.ResolveImport, Imports.ResolveCollectedModuleTag, Agenda.NestedImportLinks |

The import pass in `Agenda` takes the level rule as a parameter. `CountAllDots` gives `main` as written and `CountLeadingDots` gives the corrected pass. The pass's contracts hold under both rules. `Agenda.NestedImportLinks` shows the links that each rule records for the import above.

## Left out

- HTTP, the 10-second timeout and JSON decoding (scheduler.py:118-121) are not modelled. The request's result is the input `FetchOutcome`: any exception becomes `FetchFailed` with its text.
- APScheduler, its threads and the 30-second interval (scheduler.py:315-358) are not modelled. Runs are sequential steps, so concurrent runs are out of scope.
- DuckDB itself is not modelled: the SQL dialect, connections, the `incidents` id sequence as a database object, and `ORDER BY` tie-breaking.
  - Rows with equal rank and detection time may come back in any order from the database. The model sorts them stably in table order.
  - The sweep's `fetchone` and the snapshot's dictionary build read rows in table order.
- A failure of the marker upsert is not modelled. The code logs it and swallows it (scheduler.py:71-73, app.py:326-327).
- Timezones and the Sydney-time string formatting (app.py:49-56, 270-301) are not modelled.
- The `%Y-%m-%d` strings of the week query are replaced by day numbers. The query's grouping and its week filter (app.py:167-173) are an input list of `(day, count)` pairs.
- The weekly totals and the floating-point `AVG` durations (app.py:192-219) are left out: they are computed by the database.
- `add_engineer`, `index` rendering, the debug and error-state endpoints and `get_recent_resolved_incidents` are outside the modelled core.
- Kuzu and its MERGE writes, `os.walk`, file reading, `ast.parse`, `shlex.split` and `create_dummy_env` (process_deps.py:72-195, 395-463) are not modelled. Their results are inputs:
  - syntax-tree nodes;
  - per-line token lists, with None where `shlex` raises;
  - a map from a file to its import strings, with files that fail to parse absent.
- `Path.resolve()` is lexical here: `.` is dropped, `..` goes to the parent, and the root is its own parent. Symbolic links are not followed.
- Sets the scanner iterates over are given as sequences without repeats, in iteration order. Python's set order is not modelled.
- Exceptions in `main` other than an import string that cannot be unpacked are not modelled. That one abandons the rest of that file's imports.
- The job-definition loop of `main` (process_deps.py:476-557) is not modelled beyond the bash scan and the agenda. It registers jobs and script nodes in Kuzu.
- Bash.StepLine: a `cd` whose target cannot be resolved by the operating system (`resolve()` raising) is not modelled. Lexical resolution never fails.
- Text.Strip, Text.Words: whitespace is space, tab, newline, carriage return, vertical tab and form feed. Python's `strip()` and `split()` also treat U+001C to U+001F, U+0085, U+00A0 and the other Unicode space characters as whitespace. Lines containing those characters are not modelled faithfully.
