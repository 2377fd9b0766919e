/**
 * Absolute filesystem paths as the resolver sees them after `resolve()`:
 * the sequence of names below the root.  Joining a string onto a path and
 * resolving the result is lexical here (`.` dropped, `..` goes to the
 * parent, the root is its own parent); symbolic links are not modelled.
 */
module Paths {
  import opened Text

  /** An absolute path, as its segments below `/`. */
  type Path = seq<string>

  /** Resolved form: no empty, `.` or `..` segment. */
  predicate Normal(p: Path) {
    forall k :: 0 <= k < |p| ==> p[k] != "" && p[k] != "." && p[k] != ".."
  }

  /** `Path.parent`; the root is its own parent. */
  function Parent(p: Path): Path {
    if p == [] then [] else p[..|p| - 1]
  }

  /** `n` times `.parent`, as a `for _ in range(n)` loop does it (no step when `n <= 0`). */
  function Up(p: Path, n: int): (r: Path)
    decreases if n < 0 then 0 else n
  {
    if n <= 0 then p else Up(Parent(p), n - 1)
  }

  /** Walking up is taking a prefix: `n` segments fewer, stopping at the root. */
  lemma {:induction false} UpIsPrefix(p: Path, n: int)
    ensures var drop := if n <= 0 then 0 else if n >= |p| then |p| else n;
      Up(p, n) == p[..|p| - drop]
    decreases if n < 0 then 0 else n
  {
    if n > 0 {
      UpIsPrefix(Parent(p), n - 1);
    }
  }

  /** The names of a path string, without the empty and `.` ones. */
  function Segments(s: string): seq<string> {
    Keep(Split(s, '/'))
  }

  function Keep(parts: seq<string>): (r: seq<string>)
    ensures forall k :: 0 <= k < |r| ==> r[k] != "" && r[k] != "."
    decreases |parts|
  {
    if parts == [] then []
    else if parts[0] == "" || parts[0] == "." then Keep(parts[1..])
    else [parts[0]] + Keep(parts[1..])
  }

  /** Apply names one after another: `..` goes up, any other name goes down. */
  function Walk(base: Path, names: seq<string>): Path
    decreases |names|
  {
    if names == [] then base
    else Walk(if names[0] == ".." then Parent(base) else base + [names[0]], names[1..])
  }

  /** `(base / s).resolve()`: an absolute `s` starts again from the root. */
  function Join(base: Path, s: string): Path {
    Walk(if StartsWith(s, "/") then [] else base, Segments(s))
  }

  /** Successive joins: `for part in parts: p /= part`. */
  function JoinAll(base: Path, parts: seq<string>): Path
    decreases |parts|
  {
    if parts == [] then base else JoinAll(Join(base, parts[0]), parts[1..])
  }

  lemma {:induction false} WalkNormal(base: Path, names: seq<string>)
    requires Normal(base)
    requires forall k :: 0 <= k < |names| ==> names[k] != "" && names[k] != "."
    ensures Normal(Walk(base, names))
    decreases |names|
  {
    if names != [] {
      WalkNormal(if names[0] == ".." then Parent(base) else base + [names[0]], names[1..]);
    }
  }

  /** Joining onto a resolved path gives a resolved path. */
  lemma JoinNormal(base: Path, s: string)
    requires Normal(base)
    ensures Normal(Join(base, s))
  {
    WalkNormal(if StartsWith(s, "/") then [] else base, Segments(s));
  }

  /** Joining a plain name (no `/`, not empty, `.` or `..`) descends into it. */
  lemma JoinName(base: Path, name: string)
    requires '/' !in name && name != "" && name != "." && name != ".."
    ensures Join(base, name) == base + [name]
  {
    SplitWithout(name, '/');
    assert [name][1..] == [];
    assert Segments(name) == [name] + Keep([]);
    assert name[..1] == [name[0]] && name[0] != '/';
    assert Walk(base, [name]) == Walk(base + [name], []);
  }
}
