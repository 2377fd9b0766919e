/**
 * The second half of the dependency scan: the agenda of Python files to
 * parse (the scripts jobs run first, then every other project file), and
 * the pass over it that records script-to-script and script-to-external
 * import links.  Sets the scanner iterates over are given as sequences
 * without repeats, in the order the iteration takes.  Each file's import
 * strings are an input: files that cannot be read or parsed are absent.
 */
module Agenda {
  import opened Wrappers
  import opened Paths
  import opened Imports

  predicate Distinct<T(==)>(s: seq<T>) {
    forall i, j :: 0 <= i < j < |s| ==> s[i] != s[j]
  }

  /**
   * The parse agenda: the job scripts, then each project file not already
   * on it.  `queue` and `files` are the two sets' iteration orders.
   */
  method BuildAgenda(queue: seq<Path>, files: seq<Path>) returns (agenda: seq<Path>)
    requires Distinct(queue) && Distinct(files)
    ensures |queue| <= |agenda| && agenda[..|queue|] == queue
    ensures Distinct(agenda)
    ensures forall p :: p in agenda <==> p in queue || p in files
  {
    agenda := queue;
    for k := 0 to |files|
      invariant |queue| <= |agenda| && agenda[..|queue|] == queue
      invariant Distinct(agenda)
      invariant forall p :: p in agenda <==> p in queue || p in files[..k]
    {
      assert files[..k + 1] == files[..k] + [files[k]];
      if files[k] !in agenda {
        agenda := agenda + [files[k]];
      }
    }
    assert files[..|files|] == files;
  }

  /** The recorded graph: the script nodes, and the two kinds of import link. */
  datatype Graph = Graph(scripts: set<Path>, imports: set<(Path, Path)>, externals: set<(Path, string)>)

  const EmptyGraph := Graph({}, {}, {})

  /**
   * The links of one file's imports, in iteration order, with module tags
   * read by `rule` (`CountAllDots` is the scanner as written).  An import
   * string the resolver cannot unpack raises, which abandons the file's
   * remaining imports.
   */
  function FileLinks(rule: LevelRule, g: Graph, file: Path, raws: seq<string>, files: set<Path>, roots: seq<Path>): Graph
    decreases |raws|
  {
    if raws == [] then g
    else match ResolveWith(rule, raws[0], file, files, roots)
      case Unparsable => g
      case Project(p) =>
        FileLinks(rule, g.(scripts := g.scripts + {p}, imports := g.imports + {(file, p)}), file, raws[1..], files, roots)
      case External(name) =>
        var g' := if IsRecordedExternal(name) then g.(externals := g.externals + {(file, name)}) else g;
        FileLinks(rule, g', file, raws[1..], files, roots)
  }

  /** The import strings of a file; an unreadable or unparsable file has none. */
  function ImportsOf(parsed: map<Path, seq<string>>, file: Path): seq<string> {
    if file in parsed then parsed[file] else []
  }

  /** The pass over the agenda: each file not yet done gets its node, then its links. */
  function Process(rule: LevelRule, g: Graph, done: set<Path>, agenda: seq<Path>, parsed: map<Path, seq<string>>,
                   files: set<Path>, roots: seq<Path>): Graph
    decreases |agenda|
  {
    if agenda == [] then g
    else if agenda[0] in done then Process(rule, g, done, agenda[1..], parsed, files, roots)
    else
      var file := agenda[0];
      var g' := FileLinks(rule, g.(scripts := g.scripts + {file}), file, ImportsOf(parsed, file), files, roots);
      Process(rule, g', done + {file}, agenda[1..], parsed, files, roots)
  }

  /** What every recorded graph satisfies, for scanned files `from`. */
  ghost predicate WellFormed(g: Graph, from: set<Path>, files: set<Path>) {
    && (forall a, b :: (a, b) in g.imports ==> a in from && b in files && b in g.scripts)
    && (forall a, n :: (a, n) in g.externals ==> a in from && IsRecordedExternal(n))
  }

  lemma {:induction false} FileLinksWellFormed(rule: LevelRule, g: Graph, file: Path, raws: seq<string>,
                                               files: set<Path>, roots: seq<Path>, from: set<Path>)
    requires WellFormed(g, from, files) && file in from
    ensures WellFormed(FileLinks(rule, g, file, raws, files, roots), from, files)
    ensures g.scripts <= FileLinks(rule, g, file, raws, files, roots).scripts
    decreases |raws|
  {
    if raws != [] {
      match ResolveWith(rule, raws[0], file, files, roots)
      case Unparsable =>
      case Project(p) =>
        assert p in files;
        FileLinksWellFormed(rule, g.(scripts := g.scripts + {p}, imports := g.imports + {(file, p)}),
                            file, raws[1..], files, roots, from);
      case External(name) =>
        var g' := if IsRecordedExternal(name) then g.(externals := g.externals + {(file, name)}) else g;
        FileLinksWellFormed(rule, g', file, raws[1..], files, roots, from);
    }
  }

  /**
   * The pass records only links from agenda files, to project files that
   * have nodes, and external names that pass the filter; every agenda file
   * gets a node.
   */
  lemma {:induction false} ProcessWellFormed(rule: LevelRule, g: Graph, done: set<Path>, agenda: seq<Path>,
                                             parsed: map<Path, seq<string>>, files: set<Path>,
                                             roots: seq<Path>, from: set<Path>)
    requires WellFormed(g, from, files) && (forall p :: p in agenda ==> p in from)
    requires forall p :: p in done ==> p in g.scripts
    ensures WellFormed(Process(rule, g, done, agenda, parsed, files, roots), from, files)
    ensures g.scripts <= Process(rule, g, done, agenda, parsed, files, roots).scripts
    ensures forall p :: p in agenda ==> p in Process(rule, g, done, agenda, parsed, files, roots).scripts
    decreases |agenda|
  {
    if agenda != [] {
      assert forall p :: p in agenda[1..] ==> p in agenda;
      var file := agenda[0];
      if file in done {
        ProcessWellFormed(rule, g, done, agenda[1..], parsed, files, roots, from);
      } else {
        var g0 := g.(scripts := g.scripts + {file});
        FileLinksWellFormed(rule, g0, file, ImportsOf(parsed, file), files, roots, from);
        var g' := FileLinks(rule, g0, file, ImportsOf(parsed, file), files, roots);
        ProcessWellFormed(rule, g', done + {file}, agenda[1..], parsed, files, roots, from);
      }
    }
  }

  /** One file's import loop; stops at the first import string that cannot be unpacked. */
  method LinkImports(rule: LevelRule, g0: Graph, file: Path, raws: seq<string>, files: set<Path>, roots: seq<Path>)
    returns (g: Graph)
    ensures g == FileLinks(rule, g0, file, raws, files, roots)
  {
    g := g0;
    var k := 0;
    while k < |raws|
      invariant 0 <= k <= |raws|
      invariant FileLinks(rule, g, file, raws[k..], files, roots) == FileLinks(rule, g0, file, raws, files, roots)
    {
      assert raws[k..][0] == raws[k] && raws[k..][1..] == raws[k + 1..];
      match ResolveWith(rule, raws[k], file, files, roots) {
        case Unparsable =>
          return;
        case Project(p) =>
          g := g.(scripts := g.scripts + {p}, imports := g.imports + {(file, p)});
        case External(name) =>
          if IsRecordedExternal(name) {
            g := g.(externals := g.externals + {(file, name)});
          }
      }
      k := k + 1;
    }
  }

  /**
   * The parse loop: each agenda file is processed once, the links it
   * records are those of the pass, every agenda file has a node, and every
   * link starts at an agenda file and ends at a project file or a filtered
   * external name.
   */
  method ProcessAgenda(rule: LevelRule, agenda: seq<Path>, parsed: map<Path, seq<string>>, files: set<Path>,
                       roots: seq<Path>)
    returns (g: Graph, processed: seq<Path>)
    ensures g == Process(rule, EmptyGraph, {}, agenda, parsed, files, roots)
    ensures Distinct(processed) && forall p :: p in processed <==> p in agenda
    ensures WellFormed(g, (set p | p in agenda), files)
    ensures forall p :: p in agenda ==> p in g.scripts
  {
    g := EmptyGraph;
    processed := [];
    var done: set<Path> := {};
    for i := 0 to |agenda|
      invariant Process(rule, g, done, agenda[i..], parsed, files, roots)
             == Process(rule, EmptyGraph, {}, agenda, parsed, files, roots)
      invariant Distinct(processed)
      invariant forall p :: p in processed <==> p in done
      invariant forall p :: p in done <==> p in agenda[..i]
    {
      ProcessStep(rule, g, done, agenda, i, parsed, files, roots);
      assert agenda[..i + 1] == agenda[..i] + [agenda[i]];
      var file := agenda[i];
      if file !in done {
        done := done + {file};
        processed := processed + [file];
        g := LinkImports(rule, g.(scripts := g.scripts + {file}), file, ImportsOf(parsed, file), files, roots);
      }
    }
    assert agenda[..|agenda|] == agenda;
    assert agenda[|agenda|..] == [];
    ProcessWellFormed(rule, EmptyGraph, {}, agenda, parsed, files, roots, (set p | p in agenda));
  }

  /** One step of the pass, at position `i` of the agenda. */
  lemma ProcessStep(rule: LevelRule, g: Graph, done: set<Path>, agenda: seq<Path>, i: nat,
                    parsed: map<Path, seq<string>>, files: set<Path>, roots: seq<Path>)
    requires i < |agenda|
    ensures Process(rule, g, done, agenda[i..], parsed, files, roots)
         == if agenda[i] in done then Process(rule, g, done, agenda[i + 1..], parsed, files, roots)
            else Process(rule, FileLinks(rule, g.(scripts := g.scripts + {agenda[i]}), agenda[i],
                                         ImportsOf(parsed, agenda[i]), files, roots),
                         done + {agenda[i]}, agenda[i + 1..], parsed, files, roots)
  {
    assert agenda[i..][0] == agenda[i] && agenda[i..][1..] == agenda[i + 1..];
  }

  /** The links of a single import string. */
  lemma FileLinksOne(rule: LevelRule, g: Graph, file: Path, raw: string, files: set<Path>, roots: seq<Path>)
    ensures FileLinks(rule, g, file, [raw], files, roots)
         == match ResolveWith(rule, raw, file, files, roots)
            case Unparsable => g
            case Project(p) => g.(scripts := g.scripts + {p}, imports := g.imports + {(file, p)})
            case External(name) =>
              if IsRecordedExternal(name) then g.(externals := g.externals + {(file, name)}) else g
  {
    assert [raw][0] == raw && [raw][1..] == [];
  }

  /**
   * The nested relative import of `NestedRelativeModuleMisresolved` as the
   * pass records it: counting all the tag's dots, the file gets an external
   * link to `a.b`; counting the leading dot, it gets an import link to the
   * project file `dir/a/b.py`, which becomes a node.
   */
  lemma NestedImportLinks(g: Graph, dir: Path, file: string, a: string, b: string, roots: seq<Path>)
    requires |dir| > 0 && PlainName(a) && PlainName(b) && b != "__init__"
    ensures FileLinks(CountAllDots, g, dir + [file], [ModuleTag(1, a + "." + b)], {dir + [a, b + ".py"]}, roots)
         == g.(externals := g.externals + {(dir + [file], a + "." + b)})
    ensures FileLinks(CountLeadingDots, g, dir + [file], [ModuleTag(1, a + "." + b)], {dir + [a, b + ".py"]}, roots)
         == g.(scripts := g.scripts + {dir + [a, b + ".py"]},
               imports := g.imports + {(dir + [file], dir + [a, b + ".py"])})
  {
    var raw := ModuleTag(1, a + "." + b);
    var importer := dir + [file];
    var files := {dir + [a, b + ".py"]};
    NestedRelativeModuleMisresolved(dir, file, a, b, roots);
    DottedNameRecorded(a, b);
    FileLinksOne(CountAllDots, g, importer, raw, files, roots);
    FileLinksOne(CountLeadingDots, g, importer, raw, files, roots);
  }
}
