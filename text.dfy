/**
 * The handful of Python string operations the modelled code relies on,
 * over `seq<char>`: truthiness of an optional string, prefix and suffix
 * tests, `count`, `lstrip`, `split(sep)`, `strip()` and `split()`.
 * Whitespace is space, tab, newline, carriage return, vertical tab and
 * form feed; the other characters Python counts as whitespace (the
 * separators U+001C to U+001F, U+0085, U+00A0 and the Unicode spaces) are
 * not.
 */
module Text {
  import opened Wrappers

  /** Python truthiness of an optional string: present and non-empty. */
  predicate Present(v: Option<string>) {
    v.Some? && v.value != ""
  }

  predicate StartsWith(s: string, prefix: string) {
    |prefix| <= |s| && s[..|prefix|] == prefix
  }

  predicate EndsWith(s: string, suffix: string) {
    |suffix| <= |s| && s[|s| - |suffix|..] == suffix
  }

  /** `c * n` for one character. */
  function Repeat(c: char, n: nat): (r: string)
    ensures |r| == n && forall i :: 0 <= i < n ==> r[i] == c
  {
    seq(n, _ => c)
  }

  /** `s.count(c)`. */
  function Count(s: string, c: char): nat
    decreases |s|
  {
    if s == [] then 0 else (if s[0] == c then 1 else 0) + Count(s[1..], c)
  }

  /** The number of leading `c` characters. */
  function LeadingCount(s: string, c: char): (n: nat)
    ensures n <= |s|
    ensures forall i :: 0 <= i < n ==> s[i] == c
    ensures n < |s| ==> s[n] != c
    decreases |s|
  {
    if s != [] && s[0] == c then 1 + LeadingCount(s[1..], c) else 0
  }

  /** `s.lstrip(c)`. */
  function LStrip(s: string, c: char): string {
    s[LeadingCount(s, c)..]
  }

  /** `s.split(c)`: the pieces between separators, always at least one. */
  function Split(s: string, c: char): (parts: seq<string>)
    ensures |parts| >= 1
    decreases |s|
  {
    if s == [] then [""]
    else
      var rest := Split(s[1..], c);
      if s[0] == c then [""] + rest else [[s[0]] + rest[0]] + rest[1..]
  }

  /** `c.join(parts)`. */
  function JoinWith(parts: seq<string>, c: char): string
    decreases |parts|
  {
    if parts == [] then ""
    else if |parts| == 1 then parts[0]
    else parts[0] + [c] + JoinWith(parts[1..], c)
  }

  /** Gluing a character onto the first piece glues it onto the joined string. */
  lemma JoinPrepend(x: char, parts: seq<string>, c: char)
    requires |parts| >= 1
    ensures JoinWith([[x] + parts[0]] + parts[1..], c) == [x] + JoinWith(parts, c)
  {
    var q := [[x] + parts[0]] + parts[1..];
    assert q[0] == [x] + parts[0] && q[1..] == parts[1..];
  }

  /** An empty first piece contributes only its separator. */
  lemma JoinEmptyFirst(parts: seq<string>, c: char)
    requires |parts| >= 1
    ensures JoinWith([""] + parts, c) == [c] + JoinWith(parts, c)
  {
    assert ([""] + parts)[1..] == parts;
  }

  /** No piece of a split holds the separator. */
  lemma {:induction false} SplitPiecesFree(s: string, c: char)
    ensures forall k :: 0 <= k < |Split(s, c)| ==> c !in Split(s, c)[k]
    decreases |s|
  {
    if s != [] {
      SplitPiecesFree(s[1..], c);
      var rest := Split(s[1..], c);
      var parts := Split(s, c);
      forall k | 0 <= k < |parts| ensures c !in parts[k] {
        if s[0] == c {
          if k > 0 {
            assert parts[k] == rest[k - 1];
          }
        } else if k > 0 {
          assert parts[k] == rest[k];
        }
      }
    }
  }

  /** `split` loses nothing: joining the pieces back gives the string. */
  lemma {:induction false} SplitJoin(s: string, c: char)
    ensures JoinWith(Split(s, c), c) == s
    decreases |s|
  {
    if s != [] {
      var tail := s[1..];
      SplitJoin(tail, c);
      var rest := Split(tail, c);
      var parts := Split(s, c);
      if s[0] != c {
        assert parts == [[s[0]] + rest[0]] + rest[1..];
        JoinPrepend(s[0], rest, c);
      } else {
        assert parts == [""] + rest;
        JoinEmptyFirst(rest, c);
      }
      assert JoinWith(parts, c) == [s[0]] + tail;
    }
  }

  /** A string without the separator is a single piece. */
  lemma {:induction false} SplitWithout(s: string, c: char)
    requires c !in s
    ensures Split(s, c) == [s]
    decreases |s|
  {
    if s != [] {
      SplitWithout(s[1..], c);
      assert s == [s[0]] + s[1..];
    }
  }

  /** The piece after the last separator: `s.split(c)[-1]`. */
  function LastPiece(s: string, c: char): string {
    var parts := Split(s, c);
    parts[|parts| - 1]
  }

  predicate IsSpace(ch: char) {
    ch == ' ' || ch == '\t' || ch == '\n' || ch == '\r' || ch == '\U{0B}' || ch == '\U{0C}'
  }

  /** `s.strip()`. */
  function Strip(s: string): (r: string)
    ensures r == [] || (!IsSpace(r[0]) && !IsSpace(r[|r| - 1]))
    decreases |s|
  {
    if s == [] then []
    else if IsSpace(s[0]) then Strip(s[1..])
    else if IsSpace(s[|s| - 1]) then Strip(s[..|s| - 1])
    else s
  }

  /** `s.split()`: the maximal runs of non-whitespace characters. */
  function Words(s: string): (ws: seq<string>)
    ensures s != [] && !IsSpace(s[0]) ==> |ws| > 0
    ensures forall k :: 0 <= k < |ws| ==> ws[k] != "" && forall i :: 0 <= i < |ws[k]| ==> !IsSpace(ws[k][i])
    decreases |s|
  {
    if s == [] then []
    else
      var rest := Words(s[1..]);
      if IsSpace(s[0]) then rest
      else if s[1..] != [] && !IsSpace(s[1]) then [[s[0]] + rest[0]] + rest[1..]
      else [[s[0]]] + rest
  }

  /** `s[a..b]` has only whitespace before and after it in `s`. */
  predicate Trimmed(s: string, a: int, b: int) {
    && 0 <= a <= b <= |s|
    && (forall i :: 0 <= i < a ==> IsSpace(s[i]))
    && (forall i :: b <= i < |s| ==> IsSpace(s[i]))
  }

  lemma TrimmedFront(s: string, a: int, b: int)
    requires s != [] && IsSpace(s[0]) && Trimmed(s[1..], a, b)
    ensures Trimmed(s, a + 1, b + 1) && s[1..][a..b] == s[a + 1..b + 1]
  {
    var t := s[1..];
    forall i | 0 <= i < a + 1 ensures IsSpace(s[i]) {
      if i > 0 {
        assert s[i] == t[i - 1];
      }
    }
    forall i | b + 1 <= i < |s| ensures IsSpace(s[i]) {
      assert s[i] == t[i - 1];
    }
  }

  lemma TrimmedBack(s: string, a: int, b: int)
    requires s != [] && IsSpace(s[|s| - 1]) && Trimmed(s[..|s| - 1], a, b)
    ensures Trimmed(s, a, b) && s[..|s| - 1][a..b] == s[a..b]
  {
    var t := s[..|s| - 1];
    forall i | b <= i < |s| ensures IsSpace(s[i]) {
      if i < |s| - 1 {
        assert s[i] == t[i];
      }
    }
  }

  /** Where `strip` cuts: the bounds of the slice it keeps. */
  lemma {:induction false} StripBounds(s: string) returns (a: int, b: int)
    ensures Trimmed(s, a, b) && Strip(s) == s[a..b]
    decreases |s|
  {
    if s == [] {
      a, b := 0, 0;
    } else if IsSpace(s[0]) {
      var a', b' := StripBounds(s[1..]);
      TrimmedFront(s, a', b');
      a, b := a' + 1, b' + 1;
    } else if IsSpace(s[|s| - 1]) {
      a, b := StripBounds(s[..|s| - 1]);
      TrimmedBack(s, a, b);
    } else {
      a, b := 0, |s|;
    }
  }

  /**
   * `strip` removes exactly a whitespace prefix and a whitespace suffix: the
   * result is a slice of `s` with only whitespace outside it.  With the
   * contract of `Strip` (the slice neither starts nor ends with
   * whitespace) this pins the slice down.
   */
  lemma StripIsTrimmedSlice(s: string)
    ensures exists a, b :: Trimmed(s, a, b) && Strip(s) == s[a..b]
  {
    var a, b := StripBounds(s);
  }

  /** The words glued back together. */
  function Concat(ws: seq<string>): string
    decreases |ws|
  {
    if ws == [] then [] else ws[0] + Concat(ws[1..])
  }

  /** `s` with every whitespace character removed. */
  function Squeeze(s: string): (r: string)
    decreases |s|
  {
    if s == [] then [] else (if IsSpace(s[0]) then [] else [s[0]]) + Squeeze(s[1..])
  }

  /**
   * The number of positions `i` of `s` where a run of non-whitespace
   * starts, that is `s[i]` is not whitespace and either `i == 0` or
   * `s[i - 1]` is whitespace; `afterSpace` says whether the character
   * before `s` counts as whitespace.
   */
  function RunStarts(s: string, afterSpace: bool): nat
    decreases |s|
  {
    if s == [] then 0
    else (if afterSpace && !IsSpace(s[0]) then 1 else 0) + RunStarts(s[1..], IsSpace(s[0]))
  }

  lemma ConcatCons(w: string, ws: seq<string>)
    ensures Concat([w] + ws) == w + Concat(ws)
  {
    assert ([w] + ws)[1..] == ws;
  }

  lemma ConcatPrepend(x: char, w: string, tail: seq<string>)
    ensures Concat([[x] + w] + tail) == [x] + Concat([w] + tail)
  {
    ConcatCons([x] + w, tail);
    ConcatCons(w, tail);
  }

  /** `split()` loses only whitespace: its words glued together are `s` without whitespace. */
  lemma {:induction false} WordsConcat(s: string)
    ensures Concat(Words(s)) == Squeeze(s)
    decreases |s|
  {
    if s != [] {
      var tail := s[1..];
      WordsConcat(tail);
      var rest := Words(tail);
      if !IsSpace(s[0]) {
        if tail != [] && !IsSpace(tail[0]) {
          ConcatPrepend(s[0], rest[0], rest[1..]);
          assert [rest[0]] + rest[1..] == rest;
        } else {
          ConcatCons([s[0]], rest);
        }
      }
    }
  }

  /** `split()` yields one word per run of non-whitespace characters. */
  lemma {:induction false} WordsCount(s: string)
    ensures |Words(s)| == RunStarts(s, true)
    decreases |s|
  {
    if s != [] {
      var tail := s[1..];
      WordsCount(tail);
      if !IsSpace(s[0]) && tail != [] {
        assert RunStarts(tail, false) + (if IsSpace(tail[0]) then 0 else 1) == RunStarts(tail, true);
      }
    }
  }
}
