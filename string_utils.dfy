/**
 * The string helpers the reader relies on: `hasText`, `tokenizeToStringArray` (with trimming and
 * empty tokens dropped) and `applyRelativePath`, plus the insertion-ordered set that collects the
 * resources of an import.
 */
module StringUtils {

  /** Java's `Character.isWhitespace`: the Unicode space, line and paragraph separators except the
      non-breaking ones, plus the ASCII controls TAB, LF, VT, FF, CR and FS, GS, RS, US. */
  predicate IsWhitespace(c: char)
  {
    c == ' ' || ('\t' <= c <= '\r') || ('\U{1C}' <= c <= '\U{1F}')
    || c == '\U{1680}' || ('\U{2000}' <= c <= '\U{2006}') || ('\U{2008}' <= c <= '\U{200A}')
    || c == '\U{2028}' || c == '\U{2029}' || c == '\U{205F}' || c == '\U{3000}'
  }

  /** `hasText`: the string holds at least one character that is not whitespace. */
  predicate HasText(s: string): (r: bool)
    ensures r ==> s != []
    ensures !r ==> forall i :: 0 <= i < |s| ==> IsWhitespace(s[i])
    ensures s != [] && !IsWhitespace(s[0]) ==> r
  {
    exists i :: 0 <= i < |s| && !IsWhitespace(s[i])
  }

  /** Java's `String.trim` drops leading and trailing characters up to U+0020. */
  predicate Trimmable(c: char)
  {
    c <= ' '
  }

  function TrimLeading(s: string): (r: string)
    ensures |r| <= |s| && r == s[|s| - |r|..]
    ensures r == [] || !Trimmable(r[0])
  {
    if s != [] && Trimmable(s[0]) then TrimLeading(s[1..]) else s
  }

  function TrimTrailing(s: string): (r: string)
    ensures |r| <= |s| && r == s[..|r|]
    ensures r == [] || !Trimmable(r[|r| - 1])
  {
    if s != [] && Trimmable(s[|s| - 1]) then TrimTrailing(s[..|s| - 1]) else s
  }

  /** `String.trim`: the longest infix that neither starts nor ends with a trimmable character. */
  function Trim(s: string): (r: string)
    ensures r == [] || (!Trimmable(r[0]) && !Trimmable(r[|r| - 1]))
    ensures forall c :: c in r ==> c in s
  {
    TrimTrailing(TrimLeading(s))
  }

  /** No character of `s` is a delimiter. */
  predicate FreeOf(s: string, delims: set<char>)
  {
    forall c :: c in s ==> c !in delims
  }

  /** A token as `tokenizeToStringArray` returns it: non-empty, trimmed, free of delimiters. */
  predicate IsToken(s: string, delims: set<char>)
  {
    s != [] && !Trimmable(s[0]) && !Trimmable(s[|s| - 1]) && FreeOf(s, delims)
  }

  /**
   * The tokens of `java.util.StringTokenizer`: the maximal runs of characters not in `delims`.
   * `pending` is the run read so far.
   */
  function Runs(s: string, delims: set<char>, pending: string): (r: seq<string>)
    requires FreeOf(pending, delims)
    ensures forall k :: 0 <= k < |r| ==> r[k] != [] && FreeOf(r[k], delims)
    decreases |s|
  {
    if s == [] then
      (if pending == [] then [] else [pending])
    else if s[0] in delims then
      (if pending == [] then [] else [pending]) + Runs(s[1..], delims, [])
    else
      Runs(s[1..], delims, pending + [s[0]])
  }

  /** Trims every run and drops the runs that trim to nothing. */
  function TrimAndDropEmpty(runs: seq<string>, delims: set<char>): (r: seq<string>)
    requires forall k :: 0 <= k < |runs| ==> FreeOf(runs[k], delims)
    ensures |r| <= |runs|
    ensures forall k :: 0 <= k < |r| ==> IsToken(r[k], delims)
  {
    if runs == [] then []
    else
      var t := Trim(runs[0]);
      TrimmedRunIsToken(runs[0], delims);
      var rest := TrimAndDropEmpty(runs[1..], delims);
      if t == [] then rest else [t] + rest
  }

  /** A delimiter-free run that does not trim to nothing trims to a token. */
  lemma TrimmedRunIsToken(run: string, delims: set<char>)
    requires FreeOf(run, delims)
    ensures Trim(run) != [] ==> IsToken(Trim(run), delims)
  {
  }

  /** `tokenizeToStringArray(s, delimiters)` with trimming on and empty tokens ignored. */
  function TokenizeToStringArray(s: string, delimiters: string): (r: seq<string>)
    ensures forall k :: 0 <= k < |r| ==> IsToken(r[k], set c | c in delimiters)
  {
    var delims := set c | c in delimiters;
    TrimAndDropEmpty(Runs(s, delims, []), delims)
  }

  /** A delimiter-free rest extends the run in progress: one run, the two joined. */
  lemma {:induction false} RunsOfDelimiterFree(s: string, delims: set<char>, pending: string)
    requires FreeOf(pending, delims) && FreeOf(s, delims) && pending + s != []
    ensures Runs(s, delims, pending) == [pending + s]
    decreases |s|
  {
    if s != [] {
      assert s[0] in s;
      assert FreeOf(s[1..], delims) by {
        forall c | c in s[1..] ensures c in s { }
      }
      RunsOfDelimiterFree(s[1..], delims, pending + [s[0]]);
      assert pending + [s[0]] + s[1..] == pending + s;
    } else {
      assert pending + s == pending;
    }
  }

  /** A string that neither starts nor ends with a trimmable character is its own trim. */
  lemma TrimOfTrimmed(s: string)
    requires s != [] && !Trimmable(s[0]) && !Trimmable(s[|s| - 1])
    ensures Trim(s) == s
  {
  }

  /** A string that is already a token (non-empty, trimmed, free of the delimiters) tokenizes to itself alone. */
  lemma SingleToken(s: string, delimiters: string)
    requires IsToken(s, set c | c in delimiters)
    ensures TokenizeToStringArray(s, delimiters) == [s]
  {
    var delims := set c | c in delimiters;
    RunsOfDelimiterFree(s, delims, []);
    assert [] + s == s;
    TrimOfTrimmed(s);
  }

  /** `lastIndexOf`: the index of the last occurrence of `c`, or -1. */
  function LastIndexOf(s: string, c: char): (r: int)
    ensures -1 <= r < |s|
    ensures r >= 0 ==> s[r] == c
    ensures forall j :: r < j < |s| ==> s[j] != c
  {
    if s == [] then -1
    else if s[|s| - 1] == c then |s| - 1
    else
      var front := s[..|s| - 1];
      assert forall j :: 0 <= j < |front| ==> front[j] == s[j];
      LastIndexOf(front, c)
  }

  /**
   * `applyRelativePath(path, relativePath)`: replaces what follows the last `/` of `path` by
   * `relativePath`; a path without `/` yields `relativePath` itself.
   */
  function ApplyRelativePath(path: string, relativePath: string): (r: string)
    ensures '/' !in path ==> r == relativePath
    ensures |relativePath| <= |r| && r[|r| - |relativePath|..] == relativePath
  {
    var separatorIndex := LastIndexOf(path, '/');
    if separatorIndex != -1 then
      var newPath := path[..separatorIndex];
      var joined := if |relativePath| > 0 && relativePath[0] == '/' then newPath else newPath + "/";
      joined + relativePath
    else
      relativePath
  }

  /** No element occurs twice: the view of an insertion-ordered set. */
  predicate NoDuplicates<T(==)>(s: seq<T>)
  {
    forall i, j :: 0 <= i < j < |s| ==> s[i] != s[j]
  }

  /** `LinkedHashSet.addAll`: appends, in order, each element not present yet. */
  function AddAll<T(==,!new)>(s: seq<T>, xs: seq<T>): (r: seq<T>)
    requires NoDuplicates(s)
    ensures NoDuplicates(r)
    ensures s <= r
    ensures forall x :: x in r <==> x in s || x in xs
    decreases |xs|
  {
    if xs == [] then s
    else if xs[0] in s then AddAll(s, xs[1..])
    else AddAll(s + [xs[0]], xs[1..])
  }
}
