/**
 * The import side of the dependency scanner: the collector that turns
 * import statements into strings, the decoding of those strings, the
 * lookup of a module file among the project's Python files, and the
 * filter that decides which unresolved names are recorded as external.
 * The syntax tree, the file listing and the graph database are inputs or
 * left out; the project's files are a set of resolved paths.
 */
module Imports {
  import opened Wrappers
  import opened Text
  import opened Paths

  const ModulePrefix: string := "RELATIVE_MODULE:"
  const NamePrefix: string := "RELATIVE_NAME:"

  /** The two import statements the collector visits. */
  datatype ImportNode =
    | Import(names: seq<string>)
      /** `from <dots><module> import <names>`; `module` is absent for `from . import x`. */
    | ImportFrom(moduleName: Option<string>, names: seq<string>, level: nat)

  /** The string recorded for `from <level dots><module> import …`. */
  function ModuleTag(level: nat, moduleName: string): string {
    ModulePrefix + Repeat('.', level) + moduleName
  }

  /** The string recorded for one name of `from <level dots> import <alias>`. */
  function NameTag(level: nat, alias: string): string {
    NamePrefix + Repeat('.', level) + ":" + alias
  }

  /** The strings one visit adds to the collector's set. */
  function Tags(node: ImportNode): set<string> {
    match node
    case Import(names) => set k | 0 <= k < |names| :: names[k]
    case ImportFrom(moduleName, names, level) =>
      var m := if Present(moduleName) then moduleName.value else "";
      if level > 0 then
        if m != "" then {ModuleTag(level, m)} else set k | 0 <= k < |names| :: NameTag(level, names[k])
      else if m != "" then {m}
      else {}
  }

  /** The visitor: a set of import strings for one file. */
  class ImportCollector {
    var imports: set<string>
    /** The directory of the file being visited. */
    const fileDir: Path

    constructor (file: Path)
      ensures imports == {} && fileDir == Parent(file)
    {
      imports := {};
      fileDir := Parent(file);
    }

    /** `import a, b.c`: each name as written; a name already present is not added twice. */
    method VisitImport(names: seq<string>)
      modifies this
      ensures imports == old(imports) + Tags(Import(names))
    {
      for k := 0 to |names|
        invariant imports == old(imports) + set j | 0 <= j < k :: names[j]
      {
        assert (set j | 0 <= j < k + 1 :: names[j]) == (set j | 0 <= j < k :: names[j]) + {names[k]};
        imports := imports + {names[k]};
      }
    }

    /** `from … import …`: one module tag, one name tag per alias, or the absolute module. */
    method VisitImportFrom(moduleName: Option<string>, names: seq<string>, level: nat)
      modifies this
      ensures imports == old(imports) + Tags(ImportFrom(moduleName, names, level))
    {
      var m := "";
      if Present(moduleName) {
        m := moduleName.value;
      }
      if level > 0 {
        if m != "" {
          imports := imports + {ModuleTag(level, m)};
        } else {
          for k := 0 to |names|
            invariant imports == old(imports) + set j | 0 <= j < k :: NameTag(level, names[j])
          {
            assert (set j | 0 <= j < k + 1 :: NameTag(level, names[j]))
                == (set j | 0 <= j < k :: NameTag(level, names[j])) + {NameTag(level, names[k])};
            imports := imports + {NameTag(level, names[k])};
          }
        }
      } else if m != "" {
        imports := imports + {m};
      }
    }
  }

  // ---------------------------------------------------------------------
  // Finding a module file
  // ---------------------------------------------------------------------

  /** `<base>/<parts[..-1]>/<last>.py`. */
  function ModuleFileCandidate(base: Path, parts: seq<string>): Path
    requires |parts| > 0
  {
    Join(JoinAll(base, parts[..|parts| - 1]), parts[|parts| - 1] + ".py")
  }

  /** The file that makes a directory a package. */
  const InitFile: string := "__init__.py"

  /** `<base>/<parts>/__init__.py`. */
  function PackageInitCandidate(base: Path, parts: seq<string>): Path {
    Join(JoinAll(base, parts), InitFile)
  }

  /**
   * `_find_module_file`: the module file if it is a project file, else the
   * package's `__init__.py` if that is one; only project files come back.
   */
  function FindModuleFile(base: Path, parts: seq<string>, files: set<Path>): (r: Option<Path>)
    requires |parts| > 0
    ensures r.Some? ==> r.value in files
    ensures ModuleFileCandidate(base, parts) in files ==> r == Some(ModuleFileCandidate(base, parts))
    ensures ModuleFileCandidate(base, parts) !in files && PackageInitCandidate(base, parts) in files
            ==> r == Some(PackageInitCandidate(base, parts))
    ensures r.None? <==> ModuleFileCandidate(base, parts) !in files && PackageInitCandidate(base, parts) !in files
  {
    var py := ModuleFileCandidate(base, parts);
    if py in files then Some(py)
    else
      var init := PackageInitCandidate(base, parts);
      if init in files then Some(init) else None
  }

  /** The absolute-import loop: the first project root under which the module is found. */
  function FindInRoots(roots: seq<Path>, parts: seq<string>, files: set<Path>): (r: Option<Path>)
    requires |parts| > 0
    ensures r.Some? ==> r.value in files
    decreases |roots|
  {
    if roots == [] then None
    else
      var here := FindModuleFile(roots[0], parts, files);
      if here.Some? then here
      else
        FindInRoots(roots[1..], parts, files)
  }

  /** A module is unresolved among the roots exactly when no root holds it. */
  lemma {:induction false} FindInRootsNone(roots: seq<Path>, parts: seq<string>, files: set<Path>)
    requires |parts| > 0
    ensures FindInRoots(roots, parts, files).None? <==> forall root :: root in roots ==> FindModuleFile(root, parts, files).None?
    decreases |roots|
  {
    if roots != [] {
      FindInRootsNone(roots[1..], parts, files);
      assert forall root :: root in roots <==> root == roots[0] || root in roots[1..];
    }
  }

  /** The first found result of a sequence of lookups. */
  function FirstFound<T>(hits: seq<Option<T>>): Option<T>
    decreases |hits|
  {
    if hits == [] then None
    else if hits[0].Some? then hits[0]
    else FirstFound(hits[1..])
  }

  /** The first found result is the one at the first lookup that did not miss. */
  lemma {:induction false} FirstFoundIndex<T>(hits: seq<Option<T>>)
    ensures FirstFound(hits).Some? ==>
              exists k :: 0 <= k < |hits| && FirstFound(hits) == hits[k] && forall j :: 0 <= j < k ==> hits[j].None?
    decreases |hits|
  {
    if hits != [] && hits[0].None? {
      var tail := hits[1..];
      FirstFoundIndex(tail);
      if FirstFound(tail).Some? {
        var k :| 0 <= k < |tail| && FirstFound(tail) == tail[k] && forall j :: 0 <= j < k ==> tail[j].None?;
        assert hits[k + 1] == tail[k];
        forall j | 0 <= j < k + 1 ensures hits[j].None? {
          if j > 0 {
            assert hits[j] == tail[j - 1];
          }
        }
      }
    }
  }

  /** `_find_module_file` under each root, in order. */
  ghost function RootLookups(roots: seq<Path>, parts: seq<string>, files: set<Path>): (hits: seq<Option<Path>>)
    requires |parts| > 0
  {
    seq(|roots|, i requires 0 <= i < |roots| => FindModuleFile(roots[i], parts, files))
  }

  lemma {:induction false} RootLookupsCons(roots: seq<Path>, parts: seq<string>, files: set<Path>)
    requires |parts| > 0 && roots != []
    ensures RootLookups(roots, parts, files)[0] == FindModuleFile(roots[0], parts, files)
    ensures RootLookups(roots, parts, files)[1..] == RootLookups(roots[1..], parts, files)
  {
    var hits := RootLookups(roots, parts, files);
    var rest := RootLookups(roots[1..], parts, files);
    assert |hits[1..]| == |rest|;
    forall i | 0 <= i < |rest| ensures hits[1..][i] == rest[i] {
      assert roots[1..][i] == roots[i + 1];
    }
  }

  lemma {:induction false} FindInRootsFirstFound(roots: seq<Path>, parts: seq<string>, files: set<Path>)
    requires |parts| > 0
    ensures FindInRoots(roots, parts, files) == FirstFound(RootLookups(roots, parts, files))
    decreases |roots|
  {
    if roots != [] {
      FindInRootsFirstFound(roots[1..], parts, files);
      RootLookupsCons(roots, parts, files);
    }
  }

  /**
   * What the absolute-import loop finds is `_find_module_file` of the first
   * root that has the module: every earlier root misses.
   */
  lemma {:induction false} FindInRootsFirst(roots: seq<Path>, parts: seq<string>, files: set<Path>)
    requires |parts| > 0
    ensures FindInRoots(roots, parts, files).Some? ==>
              exists k :: 0 <= k < |roots| && FindInRoots(roots, parts, files) == FindModuleFile(roots[k], parts, files)
                          && forall j :: 0 <= j < k ==> FindModuleFile(roots[j], parts, files).None?
  {
    var hits := RootLookups(roots, parts, files);
    FindInRootsFirstFound(roots, parts, files);
    FirstFoundIndex(hits);
    if FirstFound(hits).Some? {
      var k :| 0 <= k < |hits| && FirstFound(hits) == hits[k] && forall j :: 0 <= j < k ==> hits[j].None?;
      assert hits[k] == FindModuleFile(roots[k], parts, files);
      forall j | 0 <= j < k ensures FindModuleFile(roots[j], parts, files).None? {
        assert hits[j] == FindModuleFile(roots[j], parts, files);
      }
    }
  }

  // ---------------------------------------------------------------------
  // Decoding the strings
  // ---------------------------------------------------------------------

  /** How the level of a module tag is read back from its dots. */
  datatype LevelRule =
    | CountAllDots      // every dot in the rest of the string, as the scanner does
    | CountLeadingDots  // only the dots before the module name

  function TagLevel(rule: LevelRule, s: string): nat {
    match rule
    case CountAllDots => Count(s, '.')
    case CountLeadingDots => LeadingCount(s, '.')
  }

  /** A module tag read back: its level and its module name. */
  function DecodeModuleTag(rule: LevelRule, raw: string): (int, string)
    requires StartsWith(raw, ModulePrefix)
  {
    var s := raw[|ModulePrefix|..];
    (TagLevel(rule, s), LStrip(s, '.'))
  }

  /** The position of the first `c` in `s`, or `|s|`. */
  function IndexOf(s: string, c: char): (i: nat)
    ensures i <= |s| && (forall j :: 0 <= j < i ==> s[j] != c) && (i < |s| ==> s[i] == c)
    decreases |s|
  {
    if s == [] || s[0] == c then 0 else 1 + IndexOf(s[1..], c)
  }

  /** A name tag read back with `split(":", 1)`; None when there is no second colon to split at. */
  function DecodeNameTag(raw: string): Option<(int, string)>
    requires StartsWith(raw, NamePrefix)
  {
    var s := raw[|NamePrefix|..];
    var i := IndexOf(s, ':');
    if i == |s| then None else Some((Count(s[..i], '.'), s[i + 1..]))
  }

  /** The name reported for an import that is not a project file. */
  function FallbackName(raw: string): string {
    if StartsWith(raw, ModulePrefix) then LStrip(LastPiece(raw, ':'), '.')
    else if StartsWith(raw, NamePrefix) then LastPiece(raw, ':')
    else raw
  }

  /** What resolving one import string gives. */
  datatype Resolution =
    | Project(path: Path)
    | External(name: string)
      /** A name tag without its second colon: the unpacking raises. */
    | Unparsable

  /** The project file for `parts` under `base`, or else an external module reported as `otherwise`. */
  function LookupIn(base: Path, parts: seq<string>, files: set<Path>, otherwise: string): (r: Resolution)
    requires |parts| > 0
    ensures r.Project? ==> r.path in files
    ensures r.Project? <==> FindModuleFile(base, parts, files).Some?
    ensures r.External? ==> r.name == otherwise
  {
    match FindModuleFile(base, parts, files)
    case Some(p) => Project(p)
    case None => External(otherwise)
  }

  /** A module tag: the module looked up `level - 1` directories above `dir`. */
  function ResolveModuleTag(rule: LevelRule, raw: string, dir: Path, files: set<Path>): (r: Resolution)
    requires StartsWith(raw, ModulePrefix)
    ensures r.Project? ==> r.path in files
    ensures !r.Unparsable?
  {
    var tag := DecodeModuleTag(rule, raw);
    LookupRelative(tag.0, Split(tag.1, '.'), dir, files, FallbackName(raw))
  }

  /** A name tag: the name looked up `level - 1` directories above `dir`, once the tag unpacks. */
  function ResolveNameTag(raw: string, dir: Path, files: set<Path>): (r: Resolution)
    requires StartsWith(raw, NamePrefix)
    ensures r.Project? ==> r.path in files
    ensures r.Unparsable? ==> ':' !in raw[|NamePrefix|..]
  {
    var decoded := DecodeNameTag(raw);
    if decoded.None? then Unparsable
    else LookupRelative(decoded.value.0, [decoded.value.1], dir, files, FallbackName(raw))
  }

  /** The lookup of a relative import of `level`: `level - 1` directories above `dir`. */
  function LookupRelative(level: int, parts: seq<string>, dir: Path, files: set<Path>, fallback: string): (r: Resolution)
    requires |parts| > 0
    ensures r.Project? ==> r.path in files
    ensures !r.Unparsable?
  {
    LookupIn(Up(dir, level - 1), parts, files, fallback)
  }

  /** An absolute import: the first project root that holds the module, else the name itself. */
  function ResolveAbsolute(raw: string, files: set<Path>, roots: seq<Path>): (r: Resolution)
    ensures r.Project? ==> r.path in files
    ensures r.Project? || r == External(raw)
  {
    match FindInRoots(roots, Split(raw, '.'), files)
    case Some(p) => Project(p)
    case None => External(raw)
  }

  /** `resolve_import_path`, with the module-tag level read by `rule`. */
  function ResolveWith(rule: LevelRule, raw: string, importer: Path, files: set<Path>, roots: seq<Path>): (r: Resolution)
    ensures r.Project? ==> r.path in files
    ensures r.Unparsable? ==> StartsWith(raw, NamePrefix) && ':' !in raw[|NamePrefix|..]
    ensures !StartsWith(raw, ModulePrefix) && !StartsWith(raw, NamePrefix) ==> r.Project? || r == External(raw)
  {
    if StartsWith(raw, ModulePrefix) then ResolveModuleTag(rule, raw, Parent(importer), files)
    else if StartsWith(raw, NamePrefix) then ResolveNameTag(raw, Parent(importer), files)
    else ResolveAbsolute(raw, files, roots)
  }

  /** The resolver as the scanner computes it: a module tag's level is the number of all its dots. */
  function ResolveImportAsWritten(raw: string, importer: Path, files: set<Path>, roots: seq<Path>): Resolution {
    ResolveWith(CountAllDots, raw, importer, files, roots)
  }

  /** The resolver with a module tag's level read from its leading dots only. */
  function ResolveImport(raw: string, importer: Path, files: set<Path>, roots: seq<Path>): Resolution {
    ResolveWith(CountLeadingDots, raw, importer, files, roots)
  }

  // ---------------------------------------------------------------------
  // Round trips between the collector and the resolver
  // ---------------------------------------------------------------------

  lemma {:induction false} CountAppend(a: string, b: string, c: char)
    ensures Count(a + b, c) == Count(a, c) + Count(b, c)
    decreases |a|
  {
    if a != [] {
      CountAppend(a[1..], b, c);
      assert (a + b)[0] == a[0] && (a + b)[1..] == a[1..] + b;
    } else {
      assert a + b == b;
    }
  }

  lemma {:induction false} CountRepeat(c: char, n: nat)
    ensures Count(Repeat(c, n), c) == n
    decreases n
  {
    if n > 0 {
      CountRepeat(c, n - 1);
      assert Repeat(c, n)[1..] == Repeat(c, n - 1);
    }
  }

  lemma {:induction false} CountAbsent(s: string, c: char)
    requires c !in s
    ensures Count(s, c) == 0
    decreases |s|
  {
    if s != [] {
      CountAbsent(s[1..], c);
    }
  }

  lemma {:induction false} CountPositive(s: string, c: char)
    requires c in s
    ensures Count(s, c) > 0
    decreases |s|
  {
    if s[0] != c {
      CountPositive(s[1..], c);
    }
  }

  lemma {:induction false} LeadingCountRepeat(n: nat, m: string)
    requires m == [] || m[0] != '.'
    ensures LeadingCount(Repeat('.', n) + m, '.') == n
    decreases n
  {
    if n > 0 {
      assert (Repeat('.', n) + m)[1..] == Repeat('.', n - 1) + m;
      LeadingCountRepeat(n - 1, m);
    }
  }

  lemma ModuleTagRest(level: nat, modName: string)
    ensures StartsWith(ModuleTag(level, modName), ModulePrefix)
    ensures ModuleTag(level, modName)[|ModulePrefix|..] == Repeat('.', level) + modName
  {
    assert ModuleTag(level, modName) == ModulePrefix + (Repeat('.', level) + modName);
  }

  /**
   * A module tag decoded by leading dots gives back the level and the
   * module it was built from, and an unresolved one is reported under the
   * module's name.
   */
  lemma ModuleTagRoundTrip(level: nat, modName: string)
    requires level > 0 && modName != [] && modName[0] != '.' && ':' !in modName
    ensures StartsWith(ModuleTag(level, modName), ModulePrefix)
    ensures DecodeModuleTag(CountLeadingDots, ModuleTag(level, modName)) == (level, modName)
    ensures FallbackName(ModuleTag(level, modName)) == modName
  {
    var tag := ModuleTag(level, modName);
    var s := Repeat('.', level) + modName;
    ModuleTagRest(level, modName);
    LeadingCountRepeat(level, modName);
    assert LStrip(s, '.') == modName;
    SplitJoin(tag, ':');
    assert ':' !in s;
    assert tag == "RELATIVE_MODULE" + [':'] + s;
    SplitTail(tag, "RELATIVE_MODULE", s);
  }

  /** Splitting `a:b` where `b` has no colon ends with the piece `b`. */
  lemma {:induction false} SplitTail(t: string, a: string, b: string)
    requires t == a + [':'] + b && ':' !in b
    ensures |Split(t, ':')| >= 2 && LastPiece(t, ':') == b
    decreases |a|
  {
    if a == [] {
      SplitWithout(b, ':');
      assert t[0] == ':' && t[1..] == b;
    } else {
      assert t[0] == a[0] && t[1..] == a[1..] + [':'] + b;
      SplitTail(t[1..], a[1..], b);
    }
  }

  /**
   * The scanner's reading of a module tag counts every dot: the level it
   * finds is the real level plus the dots inside the module name, so it is
   * right exactly when the module name has no dot.
   */
  lemma ModuleTagLevelAsWritten(level: nat, modName: string)
    ensures StartsWith(ModuleTag(level, modName), ModulePrefix)
    ensures DecodeModuleTag(CountAllDots, ModuleTag(level, modName)).0 == level + Count(modName, '.')
    ensures DecodeModuleTag(CountAllDots, ModuleTag(level, modName)).0 == level <==> '.' !in modName
  {
    ModuleTagRest(level, modName);
    CountAppend(Repeat('.', level), modName, '.');
    CountRepeat('.', level);
    if '.' in modName {
      CountPositive(modName, '.');
    } else {
      CountAbsent(modName, '.');
    }
  }

  lemma NameTagRest(level: nat, alias: string)
    ensures StartsWith(NameTag(level, alias), NamePrefix)
    ensures NameTag(level, alias)[|NamePrefix|..] == Repeat('.', level) + [':'] + alias
  {
    assert NameTag(level, alias) == NamePrefix + (Repeat('.', level) + [':'] + alias);
  }

  lemma NameTagDecoded(level: nat, alias: string)
    ensures StartsWith(NameTag(level, alias), NamePrefix)
    ensures DecodeNameTag(NameTag(level, alias)) == Some((level, alias))
  {
    var s := Repeat('.', level) + [':'] + alias;
    NameTagRest(level, alias);
    assert s[level] == ':' && forall j :: 0 <= j < level ==> s[j] == '.';
    assert IndexOf(s, ':') == level;
    assert s[..level] == Repeat('.', level);
    CountRepeat('.', level);
    assert s[level + 1..] == alias;
  }

  lemma NameTagFallback(level: nat, alias: string)
    requires ':' !in alias
    ensures FallbackName(NameTag(level, alias)) == alias
  {
    var tag := NameTag(level, alias);
    NameTagRest(level, alias);
    assert !StartsWith(tag, ModulePrefix) by {
      assert tag[9] == 'N' && ModulePrefix[9] == 'M';
    }
    assert tag == "RELATIVE_NAME" + [':'] + Repeat('.', level) + [':'] + alias;
    SplitTail(tag, "RELATIVE_NAME" + [':'] + Repeat('.', level), alias);
  }

  /**
   * A name tag decodes to exactly the level and alias it was built from,
   * and an unresolved one is reported under the alias.
   */
  lemma NameTagRoundTrip(level: nat, alias: string)
    requires ':' !in alias
    ensures StartsWith(NameTag(level, alias), NamePrefix)
    ensures DecodeNameTag(NameTag(level, alias)) == Some((level, alias))
    ensures FallbackName(NameTag(level, alias)) == alias
  {
    NameTagDecoded(level, alias);
    NameTagFallback(level, alias);
  }

  /**
   * Every string the collector records for a relative import is read back
   * by the resolver as that import's level and module, or its level and
   * one of its aliases.
   */
  lemma CollectedRelativeTagsDecode(moduleName: Option<string>, names: seq<string>, level: nat)
    requires level > 0
    requires Present(moduleName) ==> moduleName.value[0] != '.' && ':' !in moduleName.value
    requires forall k :: 0 <= k < |names| ==> ':' !in names[k]
    ensures forall t :: t in Tags(ImportFrom(moduleName, names, level)) ==>
      if Present(moduleName) then
        StartsWith(t, ModulePrefix) && DecodeModuleTag(CountLeadingDots, t) == (level, moduleName.value)
      else
        StartsWith(t, NamePrefix) && exists k :: 0 <= k < |names| && DecodeNameTag(t) == Some((level, names[k]))
  {
    if Present(moduleName) {
      ModuleTagRoundTrip(level, moduleName.value);
    } else {
      forall k | 0 <= k < |names|
        ensures StartsWith(NameTag(level, names[k]), NamePrefix)
        ensures DecodeNameTag(NameTag(level, names[k])) == Some((level, names[k]))
      {
        NameTagRoundTrip(level, names[k]);
      }
    }
  }

  // ---------------------------------------------------------------------
  // External modules
  // ---------------------------------------------------------------------

  /** The filter before an external module is recorded: non-empty, no leading dot, longer than one character. */
  predicate IsRecordedExternal(name: string) {
    name != "" && !StartsWith(name, ".") && |name| > 1
  }

  /** Starting with a dot is having a dot first. */
  lemma StartsWithDot(name: string)
    ensures StartsWith(name, ".") <==> name != [] && name[0] == '.'
  {
    if name != [] {
      assert name[..1] == [name[0]];
    }
  }

  /** An unresolved relative module is recorded under its name exactly when that name is longer than one character. */
  lemma UnresolvedModuleRecorded(level: nat, modName: string)
    requires level > 0 && modName != [] && modName[0] != '.' && ':' !in modName
    ensures IsRecordedExternal(FallbackName(ModuleTag(level, modName))) <==> |modName| > 1
  {
    ModuleTagRoundTrip(level, modName);
    StartsWithDot(modName);
  }

  /**
   * An unresolved relative name is recorded under its alias when the alias
   * passes the filter; `from . import *` is never recorded.
   */
  lemma UnresolvedNameRecorded(level: nat, alias: string)
    requires ':' !in alias
    ensures IsRecordedExternal(FallbackName(NameTag(level, alias))) <==> alias != [] && alias[0] != '.' && |alias| > 1
    ensures !IsRecordedExternal(FallbackName(NameTag(level, "*")))
  {
    NameTagRoundTrip(level, alias);
    NameTagRoundTrip(level, "*");
    StartsWithDot(alias);
  }

  // ---------------------------------------------------------------------
  // The module-level discrepancy
  // ---------------------------------------------------------------------

  /** Splitting `a<c>b`, where neither part holds `c`, gives the two parts. */
  lemma {:induction false} SplitAtOne(a: string, b: string, c: char)
    requires c !in a && c !in b
    ensures Split(a + [c] + b, c) == [a, b]
    decreases |a|
  {
    var t := a + [c] + b;
    if a == [] {
      SplitWithout(b, c);
      assert t[0] == c && t[1..] == b;
    } else {
      SplitAtOne(a[1..], b, c);
      assert t[0] == a[0] && t[1..] == a[1..] + [c] + b;
      assert [a[0]] + a[1..] == a;
    }
  }

  /** A name the resolver can look up as one path segment and one dotted component. */
  predicate PlainName(n: string) {
    n != "" && '.' !in n && '/' !in n && ':' !in n
  }

  lemma PlainSegment(n: string)
    requires PlainName(n)
    ensures '/' !in n && n != "" && n != "." && n != ".."
  {
    assert n[0] != '.';
  }

  lemma PlainModuleFile(n: string)
    requires PlainName(n)
    ensures '/' !in n + ".py" && n + ".py" != "" && n + ".py" != "." && n + ".py" != ".."
  {
    var py := n + ".py";
    forall i | 0 <= i < |py| ensures py[i] != '/' {
      if i < |n| {
        assert py[i] == n[i];
      }
    }
    assert |py| > 2;
  }

  /** Joining one plain component descends into it. */
  lemma JoinAllOne(base: Path, a: string)
    requires PlainName(a)
    ensures JoinAll(base, [a]) == base + [a]
  {
    PlainSegment(a);
    JoinName(base, a);
    assert [a][1..] == [];
  }

  lemma PlainCandidates(base: Path, a: string, b: string)
    requires PlainName(a) && PlainName(b)
    ensures ModuleFileCandidate(base, [a, b]) == base + [a, b + ".py"]
  {
    assert [a, b][..1] == [a];
    JoinAllOne(base, a);
    PlainModuleFile(b);
    JoinName(base + [a], b + ".py");
    assert base + [a] + [b + ".py"] == base + [a, b + ".py"];
  }

  lemma JoinInit(base: Path)
    ensures Join(base, InitFile) == base + [InitFile]
  {
    JoinName(base, InitFile);
  }

  lemma JoinAllTwo(base: Path, a: string, b: string)
    requires PlainName(a) && PlainName(b)
    ensures JoinAll(base, [a, b]) == base + [a, b]
  {
    PlainSegment(a);
    JoinName(base, a);
    assert [a, b][1..] == [b];
    JoinAllOne(base + [a], b);
    assert base + [a] + [b] == base + [a, b];
  }

  lemma PackageInitOf(base: Path, parts: seq<string>, dir: Path)
    requires JoinAll(base, parts) == dir
    ensures PackageInitCandidate(base, parts) == dir + [InitFile]
  {
    JoinInit(dir);
  }

  lemma PlainPackageInit(base: Path, a: string, b: string)
    requires PlainName(a) && PlainName(b)
    ensures PackageInitCandidate(base, [a, b]) == base + [a, b] + [InitFile]
  {
    JoinAllTwo(base, a, b);
    PackageInitOf(base, [a, b], base + [a, b]);
  }

  /** A dotted module name `a.b` passes the filter on external names. */
  lemma DottedNameRecorded(a: string, b: string)
    requires PlainName(a) && PlainName(b)
    ensures IsRecordedExternal(a + "." + b)
  {
    var m := a + "." + b;
    DottedShape(a, b);
    assert |m| > 1;
    assert m[..1] == [m[0]];
  }

  /** A dotted pair of plain names holds exactly one dot and no colon, and starts with a name. */
  lemma DottedShape(a: string, b: string)
    requires PlainName(a) && PlainName(b)
    ensures ':' !in a + "." + b && (a + "." + b)[0] != '.'
    ensures Count(a + "." + b, '.') == 1
  {
    var m := a + "." + b;
    assert m == a + ['.'] + b;
    assert m[0] == a[0];
    CountAppend(a + ['.'], b, '.');
    CountAppend(a, ['.'], '.');
    CountAbsent(a, '.');
    CountAbsent(b, '.');
    assert Count(['.'], '.') == 1;
  }

  /** The tag of `from .a.b import …` read both ways, and its module split into components. */
  lemma DottedTagDecoded(a: string, b: string)
    requires PlainName(a) && PlainName(b)
    ensures StartsWith(ModuleTag(1, a + "." + b), ModulePrefix)
    ensures DecodeModuleTag(CountAllDots, ModuleTag(1, a + "." + b)) == (2, a + "." + b)
    ensures DecodeModuleTag(CountLeadingDots, ModuleTag(1, a + "." + b)) == (1, a + "." + b)
    ensures FallbackName(ModuleTag(1, a + "." + b)) == a + "." + b
    ensures Split(a + "." + b, '.') == [a, b]
  {
    var m := a + "." + b;
    DottedShape(a, b);
    ModuleTagRoundTrip(1, m);
    ModuleTagLevelAsWritten(1, m);
    assert m == a + ['.'] + b;
    SplitAtOne(a, b, '.');
  }

  /** `a/b.py` is found under the directory that holds it and not one level higher. */
  lemma DottedLookups(dir: Path, a: string, b: string)
    requires |dir| > 0 && PlainName(a) && PlainName(b) && b != "__init__"
    ensures FindModuleFile(dir, [a, b], {dir + [a, b + ".py"]}) == Some(dir + [a, b + ".py"])
    ensures FindModuleFile(Parent(dir), [a, b], {dir + [a, b + ".py"]}) == None
  {
    var target := dir + [a, b + ".py"];
    PlainCandidates(dir, a, b);
    PlainCandidates(Parent(dir), a, b);
    PlainPackageInit(Parent(dir), a, b);
    assert |Parent(dir) + [a, b + ".py"]| != |target|;
    assert Parent(dir) + [a, b] + [InitFile] != target by {
      assert (b + ".py")[..|b|] == b;
      assert InitFile[..8] == "__init__";
      assert target[|target| - 1] == b + ".py";
    }
  }

  /**
   * `from .a.b import x` in a file of directory `dir`, with `dir/a/b.py` a
   * project file (for instance `/proj/pkg/main.py` importing
   * `from .sub.mod import x`, with `/proj/pkg/sub/mod.py` present).  The
   * scanner's level counts both dots, so it looks one directory too high
   * and reports an external module `a.b`; reading the level from the
   * leading dot finds the project file.
   */
  lemma NestedRelativeModuleMisresolved(dir: Path, file: string, a: string, b: string, roots: seq<Path>)
    requires |dir| > 0 && PlainName(a) && PlainName(b) && b != "__init__"
    ensures ResolveImportAsWritten(ModuleTag(1, a + "." + b), dir + [file], {dir + [a, b + ".py"]}, roots)
         == External(a + "." + b)
    ensures ResolveImport(ModuleTag(1, a + "." + b), dir + [file], {dir + [a, b + ".py"]}, roots)
         == Project(dir + [a, b + ".py"])
  {
    DottedTagDecoded(a, b);
    DottedLookups(dir, a, b);
    assert Parent(dir + [file]) == dir;
    assert Up(dir, 0) == dir;
    assert Up(dir, 1) == Parent(dir);
  }

  /**
   * A collected `from <level dots><m> import …` tag, resolved with the
   * level read from its leading dots, is looked up in the importer's
   * directory walked up `level - 1` parents, and reported under the module
   * name `m` when it is not a project file there.
   */
  lemma {:induction false} ResolveCollectedModuleTag(level: nat, m: string, importer: Path, files: set<Path>, roots: seq<Path>)
    requires level > 0 && m != [] && m[0] != '.' && ':' !in m
    ensures ResolveImport(ModuleTag(level, m), importer, files, roots)
         == LookupIn(Up(Parent(importer), level - 1), Split(m, '.'), files, m)
  {
    ModuleTagRoundTrip(level, m);
    ResolveDecodedModuleTag(ModuleTag(level, m), level, m, importer, files, roots);
  }

  lemma ResolveDecodedModuleTag(raw: string, level: int, m: string, importer: Path, files: set<Path>, roots: seq<Path>)
    requires StartsWith(raw, ModulePrefix) && DecodeModuleTag(CountLeadingDots, raw) == (level, m)
    requires FallbackName(raw) == m
    ensures ResolveImport(raw, importer, files, roots)
         == LookupIn(Up(Parent(importer), level - 1), Split(m, '.'), files, m)
  {
    assert ResolveImport(raw, importer, files, roots) == ResolveModuleTag(CountLeadingDots, raw, Parent(importer), files);
    ModuleTagLookup(CountLeadingDots, raw, level, m, Parent(importer), files);
  }

  /** The two relative prefixes differ at their tenth character, so no string has both. */
  lemma NameTagNotModuleTag(raw: string)
    requires StartsWith(raw, NamePrefix)
    ensures !StartsWith(raw, ModulePrefix)
  {
    assert raw[9] == NamePrefix[9] == 'N';
    assert ModulePrefix[9] == 'M';
  }

  /**
   * A collected `from <level dots> import <alias>` tag is looked up as the
   * single name `alias` in the importer's directory walked up `level - 1`
   * parents, under either level rule, and reported under `alias` when it
   * is not a project file there.
   */
  lemma {:induction false} ResolveCollectedNameTag(rule: LevelRule, level: nat, alias: string, importer: Path, files: set<Path>,
                                roots: seq<Path>)
    requires ':' !in alias
    ensures ResolveWith(rule, NameTag(level, alias), importer, files, roots)
         == LookupIn(Up(Parent(importer), level - 1), [alias], files, alias)
  {
    NameTagRoundTrip(level, alias);
    ResolveDecodedNameTag(rule, NameTag(level, alias), level, alias, importer, files, roots);
  }

  lemma ResolveDecodedNameTag(rule: LevelRule, raw: string, level: int, alias: string, importer: Path,
                              files: set<Path>, roots: seq<Path>)
    requires StartsWith(raw, NamePrefix) && DecodeNameTag(raw) == Some((level, alias)) && FallbackName(raw) == alias
    ensures ResolveWith(rule, raw, importer, files, roots)
         == LookupIn(Up(Parent(importer), level - 1), [alias], files, alias)
  {
    ResolveWithNameTag(rule, raw, importer, files, roots);
    NameTagLookup(raw, level, alias, Parent(importer), files);
  }

  /** A name tag goes to the name-tag branch. */
  lemma ResolveWithNameTag(rule: LevelRule, raw: string, importer: Path, files: set<Path>, roots: seq<Path>)
    requires StartsWith(raw, NamePrefix)
    ensures ResolveWith(rule, raw, importer, files, roots) == ResolveNameTag(raw, Parent(importer), files)
  {
    NameTagNotModuleTag(raw);
  }

  /** A name tag that unpacks is looked up with the level and name it unpacks to. */
  lemma NameTagLookup(raw: string, level: int, alias: string, dir: Path, files: set<Path>)
    requires StartsWith(raw, NamePrefix) && DecodeNameTag(raw) == Some((level, alias))
    ensures ResolveNameTag(raw, dir, files) == LookupIn(Up(dir, level - 1), [alias], files, FallbackName(raw))
  {
    assert DecodeNameTag(raw).value.0 == level && DecodeNameTag(raw).value.1 == alias;
  }

  /** A module tag is looked up with the level and name it decodes to. */
  lemma ModuleTagLookup(rule: LevelRule, raw: string, level: int, m: string, dir: Path, files: set<Path>)
    requires StartsWith(raw, ModulePrefix) && DecodeModuleTag(rule, raw) == (level, m)
    ensures ResolveModuleTag(rule, raw, dir, files) == LookupIn(Up(dir, level - 1), Split(m, '.'), files, FallbackName(raw))
  {
    assert DecodeModuleTag(rule, raw).0 == level && DecodeModuleTag(rule, raw).1 == m;
  }
}
