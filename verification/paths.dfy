/**
  Path strings as the search script builds and reads them: a child's path
  is its parent's path, a '/' and the child's name, and the base name of a
  path is whatever follows its last '/'.
 */
module Paths {
  import opened Strings

  /** The path separator the script writes and splits on. */
  const Sep: char := '/'

  /** The path of entry `name` listed in directory `parent`: when the name
      holds no separator, reading its base name back gives the name, whatever
      the parent. */
  function ChildPath(parent: string, name: string): (p: string)
    ensures Sep !in name ==> BaseName(p) == name
  {
    var p := parent + [Sep] + name;
    if Sep !in name then
      assert IsBaseName(name, p);
      BaseNameUnique(BaseName(p), name, p);
      p
    else p
  }

  /** `b` is the text after the last separator of `path` (all of `path` when
      there is no separator). */
  ghost predicate IsBaseName(b: string, path: string)
  {
    && |b| <= |path|
    && path[|path| - |b|..] == b
    && Sep !in b
    && (|b| == |path| || path[|path| - |b| - 1] == Sep)
  }

  /** The base name the script compares against the query: the last piece of
      `path.split('/')`. */
  function BaseName(path: string): (b: string)
    ensures IsBaseName(b, path)
  {
    var parts := Split(path, Sep);
    JoinSplit(path, Sep);
    JoinEndsWithLast(parts, Sep);
    parts[|parts| - 1]
  }

  /** A join ends with its last piece, preceded by the separator when there is more than one piece. */
  lemma {:induction false} JoinEndsWithLast(parts: seq<string>, sep: char)
    requires |parts| >= 1
    ensures var j := Join(parts, sep); var last := parts[|parts| - 1];
      && |last| <= |j|
      && j[|j| - |last|..] == last
      && (|parts| == 1 || (|last| < |j| && j[|j| - |last| - 1] == sep))
    decreases |parts|
  {
    if |parts| > 1 {
      JoinEndsWithLast(parts[1..], sep);
      var tail := Join(parts[1..], sep);
      var j := parts[0] + [sep] + tail;
      assert j[|j| - |tail|..] == tail;
      if |parts| == 2 {
        assert j[|j| - |tail| - 1] == sep;
      }
    }
  }

  /** A path has only one base name. */
  lemma BaseNameUnique(b1: string, b2: string, path: string)
    requires IsBaseName(b1, path) && IsBaseName(b2, path)
    ensures b1 == b2
  {
  }
}
