/**
 * The scan of a bash script for the Python scripts it runs.  The script's
 * lines and their shell tokenisation are inputs: each line carries the
 * tokens `shlex` splits it into, or None where `shlex` raises.  The working
 * directory is tracked through `cd` lines only.
 */
module Bash {
  import opened Wrappers
  import opened Text
  import opened Paths

  /** One line of the script, with its `shlex` tokens (None: unbalanced quotes). */
  datatype ScriptLine = ScriptLine(text: string, tokens: Option<seq<string>>)

  /** `Path(s).name`: the last name of the path, or "" when there is none. */
  function PathName(s: string): string {
    var names := Segments(s);
    if names == [] then "" else names[|names| - 1]
  }

  /** The first argument naming a `.py` file that is not an option. */
  function FirstScriptArg(args: seq<string>): (r: Option<string>)
    ensures r.None? <==> forall k :: 0 <= k < |args| ==> !EndsWith(args[k], ".py") || StartsWith(args[k], "-")
    ensures r.Some? ==> EndsWith(r.value, ".py") && !StartsWith(r.value, "-")
    ensures r.Some? ==> exists k :: 0 <= k < |args| && args[k] == r.value &&
                                 (forall j :: 0 <= j < k ==> !EndsWith(args[j], ".py") || StartsWith(args[j], "-"))
    decreases |args|
  {
    if args == [] then None
    else if EndsWith(args[0], ".py") && !StartsWith(args[0], "-") then Some(args[0])
    else
      var r := FirstScriptArg(args[1..]);
      assert forall k :: 1 <= k < |args| ==> args[k] == args[1..][k - 1];
      if r.Some? then
        var k :| 0 <= k < |args[1..]| && args[1..][k] == r.value &&
          forall j :: 0 <= j < k ==> !EndsWith(args[1..][j], ".py") || StartsWith(args[1..][j], "-");
        assert args[k + 1] == r.value;
        r
      else r
  }

  /** The script a command line runs, if it is a Python invocation. */
  function PythonCandidate(args: seq<string>): (r: Option<string>)
    requires args != []
    ensures r.Some? ==> EndsWith(r.value, ".py")
    ensures args[0] == "python" || args[0] == "python3" ==> r == FirstScriptArg(args[1..])
    ensures args[0] != "python" && args[0] != "python3" ==> (r.Some? <==> EndsWith(args[0], ".py"))
    ensures args[0] != "python" && args[0] != "python3" && r.Some? ==> r.value == args[0]
  {
    var cmd := args[0];
    if cmd == "python" || cmd == "python3" then FirstScriptArg(args[1..])
    else if EndsWith(cmd, ".py") && (PathName(cmd) == cmd || '/' in cmd || StartsWith(cmd, ".")) then
      Some(cmd)
    else
      CommandGuardIsSuffix(cmd);
      None
  }

  /**
   * The guard on a command that is itself a `.py` file always holds: a
   * name without `/` is its own last name.  Any command ending in `.py`
   * counts as a script.
   */
  lemma CommandGuardIsSuffix(cmd: string)
    ensures EndsWith(cmd, ".py") ==> PathName(cmd) == cmd || '/' in cmd || StartsWith(cmd, ".")
  {
    if EndsWith(cmd, ".py") && '/' !in cmd {
      SplitWithout(cmd, '/');
      assert cmd != "" && cmd != "." by {
        assert |cmd| >= 3;
      }
      assert [cmd][1..] == [];
      assert Segments(cmd) == [cmd] + Keep([]);
    }
  }

  /** The first project root under which `arg` is a project file. */
  function UnderRoots(roots: seq<Path>, arg: string, files: set<Path>): (r: Option<Path>)
    ensures r.Some? ==> r.value in files
    ensures r.Some? ==> exists k :: 0 <= k < |roots| && r.value == Join(roots[k], arg)
                                 && forall j :: 0 <= j < k ==> Join(roots[j], arg) !in files
    ensures r.None? <==> forall k :: 0 <= k < |roots| ==> Join(roots[k], arg) !in files
    decreases |roots|
  {
    if roots == [] then None
    else if Join(roots[0], arg) in files then Some(Join(roots[0], arg))
    else
      var tail := roots[1..];
      var r := UnderRoots(tail, arg, files);
      assert forall k :: 1 <= k < |roots| ==> roots[k] == tail[k - 1];
      if r.Some? then
        var k :| 0 <= k < |tail| && r.value == Join(tail[k], arg)
                 && forall j :: 0 <= j < k ==> Join(tail[j], arg) !in files;
        assert roots[k + 1] == tail[k];
        r
      else r
  }

  /**
   * Where a script argument is found: as an absolute path, else under the
   * working directory, else (unless it is written `./…` or `../…`) under
   * the first project root that has it.  Only project files are found.
   */
  function LocateScript(cwd: Path, arg: string, files: set<Path>, roots: seq<Path>): (r: Option<Path>)
    ensures r.Some? ==> r.value in files
    ensures Join(cwd, arg) in files ==> r == Some(Join(cwd, arg))
    ensures StartsWith(arg, "/") ==> (r.Some? <==> Join(cwd, arg) in files)
    ensures StartsWith(arg, "./") || StartsWith(arg, "../") ==> (r.Some? <==> Join(cwd, arg) in files)
    ensures !StartsWith(arg, "/") && !StartsWith(arg, "./") && !StartsWith(arg, "../") && Join(cwd, arg) !in files
            ==> r == UnderRoots(roots, arg, files)
  {
    if StartsWith(arg, "/") then
      var p := Join([], arg);
      assert p == Join(cwd, arg);
      if p in files then Some(p) else None
    else
      var p := Join(cwd, arg);
      if p in files then Some(p)
      else if StartsWith(arg, "./") || StartsWith(arg, "../") then None
      else UnderRoots(roots, arg, files)
  }

  /** A line that is neither blank, a comment, nor a `cd`: a command. */
  predicate IsCommand(line: ScriptLine) {
    var t := Strip(line.text);
    t != [] && !StartsWith(t, "#") && !StartsWith(t, "cd ")
  }

  /** A command's arguments: its `shlex` tokens, or its whitespace-separated words when `shlex` raises. */
  function CommandArgs(line: ScriptLine): seq<string> {
    if line.tokens.Some? then line.tokens.value else Words(Strip(line.text))
  }

  /** The script a command line names, if any. */
  function CommandScript(line: ScriptLine): Option<string> {
    var args := CommandArgs(line);
    if args == [] then None else PythonCandidate(args)
  }

  /**
   * One line: the working directory after it, and the project script it
   * runs, if any.  A `cd` with a target moves to the target taken relative
   * to the current directory (an absolute target replaces it); a `cd` whose
   * tokens cannot be had keeps the directory.  A command naming a script
   * runs the script `LocateScript` finds for it from the current directory.
   */
  function StepLine(cwd: Path, line: ScriptLine, files: set<Path>, roots: seq<Path>): (r: (Path, Option<Path>))
    ensures r.1.Some? ==> r.1.value in files
    ensures r.0 != cwd ==> StartsWith(Strip(line.text), "cd ")
    ensures StartsWith(Strip(line.text), "cd ") || StartsWith(Strip(line.text), "#") ==> r.1.None?
    ensures StartsWith(Strip(line.text), "cd ") && line.tokens.Some? && |line.tokens.value| >= 2
            ==> r.0 == Join(cwd, line.tokens.value[1])
    ensures StartsWith(Strip(line.text), "cd ") && (line.tokens.None? || |line.tokens.value| < 2) ==> r.0 == cwd
    ensures IsCommand(line) && CommandScript(line).Some?
            ==> r.1 == LocateScript(cwd, CommandScript(line).value, files, roots)
    ensures r.1.Some? ==> IsCommand(line) && CommandScript(line).Some?
  {
    var t := Strip(line.text);
    if t == [] || StartsWith(t, "#") then (cwd, None)
    else if StartsWith(t, "cd ") then
      (match line.tokens
       case Some(ts) => if |ts| >= 2 then Join(cwd, ts[1]) else cwd
       case None => cwd,
       None)
    else
      var args := if line.tokens.Some? then line.tokens.value else Words(t);
      if args == [] then (cwd, None)
      else match PythonCandidate(args)
        case None => (cwd, None)
        case Some(arg) => (cwd, LocateScript(cwd, arg, files, roots))
  }

  /** The scripts the lines run, starting in directory `cwd`. */
  function Scan(cwd: Path, lines: seq<ScriptLine>, files: set<Path>, roots: seq<Path>): set<Path>
    decreases |lines|
  {
    if lines == [] then {}
    else
      var (next, hit) := StepLine(cwd, lines[0], files, roots);
      (if hit.Some? then {hit.value} else {}) + Scan(next, lines[1..], files, roots)
  }

  /** Everything a scan reports is a project file. */
  lemma {:induction false} ScanFindsProjectFiles(cwd: Path, lines: seq<ScriptLine>, files: set<Path>, roots: seq<Path>)
    ensures Scan(cwd, lines, files, roots) <= files
    decreases |lines|
  {
    if lines != [] {
      ScanFindsProjectFiles(StepLine(cwd, lines[0], files, roots).0, lines[1..], files, roots);
    }
  }

  /** The script a line runs when read in directory `cwd`, as a set. */
  function HitOf(cwd: Path, line: ScriptLine, files: set<Path>, roots: seq<Path>): set<Path> {
    var hit := StepLine(cwd, line, files, roots).1;
    if hit.Some? then {hit.value} else {}
  }

  /**
   * In a script without `cd` lines every line is read in the script's own
   * directory: the scan is the union of what each line runs on its own.
   */
  lemma {:induction false} ScanWithoutCd(cwd: Path, lines: seq<ScriptLine>, files: set<Path>, roots: seq<Path>)
    requires forall k :: 0 <= k < |lines| ==> !StartsWith(Strip(lines[k].text), "cd ")
    ensures Scan(cwd, lines, files, roots)
         == set p, k | 0 <= k < |lines| && p in HitOf(cwd, lines[k], files, roots) :: p
    decreases |lines|
  {
    if lines != [] {
      assert !StartsWith(Strip(lines[0].text), "cd ");
      ScanWithoutCd(cwd, lines[1..], files, roots);
      var rest := set p, k | 0 <= k < |lines[1..]| && p in HitOf(cwd, lines[1..][k], files, roots) :: p;
      var all := set p, k | 0 <= k < |lines| && p in HitOf(cwd, lines[k], files, roots) :: p;
      assert all == HitOf(cwd, lines[0], files, roots) + rest by {
        forall p | p in all ensures p in HitOf(cwd, lines[0], files, roots) + rest {
          var k :| 0 <= k < |lines| && p in HitOf(cwd, lines[k], files, roots);
          if k > 0 {
            assert lines[k] == lines[1..][k - 1];
          }
        }
        forall p | p in rest ensures p in all {
          var k :| 0 <= k < |lines[1..]| && p in HitOf(cwd, lines[1..][k], files, roots);
          assert lines[1..][k] == lines[k + 1];
        }
      }
    }
  }

  /**
   * `parse_python_invocations_from_bash`: None for `lines` is a script
   * that cannot be read, which yields no scripts.
   */
  method ParseBashInvocations(script: Path, lines: Option<seq<ScriptLine>>, files: set<Path>, roots: seq<Path>)
    returns (found: set<Path>)
    ensures found == (if lines.None? then {} else Scan(Parent(script), lines.value, files, roots))
    ensures found <= files
  {
    found := {};
    if lines.None? {
      return;
    }
    var ls := lines.value;
    var cwd := Parent(script);
    var i := 0;
    while i < |ls|
      invariant 0 <= i <= |ls|
      invariant found + Scan(cwd, ls[i..], files, roots) == Scan(Parent(script), ls, files, roots)
    {
      var step := StepLine(cwd, ls[i], files, roots);
      assert ls[i..][0] == ls[i] && ls[i..][1..] == ls[i + 1..];
      if step.1.Some? {
        found := found + {step.1.value};
      }
      cwd := step.0;
      i := i + 1;
    }
    assert ls[i..] == [];
    ScanFindsProjectFiles(Parent(script), ls, files, roots);
  }

  /**
   * A `cd d` line followed by a command naming script `a`: the command is
   * read in `d` taken relative to the starting directory, so a project file
   * there is among the scripts found.
   */
  lemma ScanCdThenCommand(cwd: Path, cd: ScriptLine, cmd: ScriptLine, rest: seq<ScriptLine>,
                          files: set<Path>, roots: seq<Path>, a: string)
    requires StartsWith(Strip(cd.text), "cd ") && cd.tokens.Some? && |cd.tokens.value| >= 2
    requires IsCommand(cmd) && CommandScript(cmd) == Some(a)
    requires Join(Join(cwd, cd.tokens.value[1]), a) in files
    ensures Join(Join(cwd, cd.tokens.value[1]), a) in Scan(cwd, [cd, cmd] + rest, files, roots)
  {
    var lines := [cd, cmd] + rest;
    var there := Join(cwd, cd.tokens.value[1]);
    assert lines[0] == cd && lines[1..] == [cmd] + rest;
    assert StepLine(cwd, cd, files, roots).0 == there;
    assert ([cmd] + rest)[0] == cmd;
    assert StepLine(there, cmd, files, roots).1 == Some(Join(there, a));
  }
}
