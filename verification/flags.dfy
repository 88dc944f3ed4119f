/**
  The command-line flag rule of the script: which of the recognised flags
  appear decides the search type and whether the exact pass runs.
 */
module Flags {
  import opened Matcher

  predicate IsFileFlag(a: string) { a == "-f" || a == "--file" || a == "--files" }
  predicate IsDirectoryFlag(a: string) { a == "-d" || a == "--directory" || a == "--directories" }
  predicate IsExactFlag(a: string) { a == "-e" || a == "--exact" }

  ghost predicate HasFileFlag(args: seq<string>) { exists i :: 0 <= i < |args| && IsFileFlag(args[i]) }
  ghost predicate HasDirectoryFlag(args: seq<string>) { exists i :: 0 <= i < |args| && IsDirectoryFlag(args[i]) }
  ghost predicate HasExactFlag(args: seq<string>) { exists i :: 0 <= i < |args| && IsExactFlag(args[i]) }

  /** What the search runs with. */
  datatype Settings = Settings(searchType: SearchType, exact: bool)

  /** The `for a in real_args` loop: the file, directory and exact booleans it
      leaves set, each starting false and set by any matching flag. */
  function ScanFlags(args: seq<string>): (r: (bool, bool, bool))
    ensures r.0 <==> HasFileFlag(args)
    ensures r.1 <==> HasDirectoryFlag(args)
    ensures r.2 <==> HasExactFlag(args)
  {
    if args == [] then (false, false, false)
    else
      var a := args[0];
      var rest := ScanFlags(args[1..]);
      assert forall i :: 1 <= i < |args| ==> args[i] == args[1..][i - 1];
      assert forall j :: 0 <= j < |args[1..]| ==> args[1..][j] == args[j + 1];
      (IsFileFlag(a) || rest.0, IsDirectoryFlag(a) || rest.1, IsExactFlag(a) || rest.2)
  }

  /** The decision after the loop: directories only or files only when
      exactly one of the two kinds was asked for, both otherwise. */
  function DecideSearchType(directorySearch: bool, fileSearch: bool): (t: SearchType)
    ensures t.IncludesDirs() <==> directorySearch || !fileSearch
    ensures t.IncludesFiles() <==> fileSearch || !directorySearch
  {
    if directorySearch && !fileSearch then DirectorySearch
    else if fileSearch && !directorySearch then FileSearch
    else SearchBoth
  }

  /** The settings the flags before the query select. */
  function ParseFlags(args: seq<string>): (s: Settings)
    ensures s.exact <==> HasExactFlag(args)
    ensures s.searchType == DirectorySearch <==> HasDirectoryFlag(args) && !HasFileFlag(args)
    ensures s.searchType == FileSearch <==> HasFileFlag(args) && !HasDirectoryFlag(args)
    ensures s.searchType == SearchBoth <==> (HasDirectoryFlag(args) <==> HasFileFlag(args))
  {
    var (fileSearch, directorySearch, exact) := ScanFlags(args);
    Settings(DecideSearchType(directorySearch, fileSearch), exact)
  }

  /** With no flags the search covers both kinds and is not exact: the same
      settings the script uses when the query is its only argument. */
  lemma NoFlags()
    ensures ParseFlags([]) == Settings(SearchBoth, false)
  {
  }

  lemma HasFlagsAppend(a: seq<string>, b: seq<string>)
    ensures HasFileFlag(a + b) <==> HasFileFlag(a) || HasFileFlag(b)
    ensures HasDirectoryFlag(a + b) <==> HasDirectoryFlag(a) || HasDirectoryFlag(b)
    ensures HasExactFlag(a + b) <==> HasExactFlag(a) || HasExactFlag(b)
  {
    assert forall i :: 0 <= i < |a| ==> (a + b)[i] == a[i];
    assert forall i :: 0 <= i < |b| ==> (a + b)[|a| + i] == b[i];
    assert forall i :: |a| <= i < |a + b| ==> (a + b)[i] == b[i - |a|];
  }

  /** Flags may come in any order. */
  lemma FlagOrderIrrelevant(a: seq<string>, b: seq<string>)
    ensures ParseFlags(a + b) == ParseFlags(b + a)
  {
    HasFlagsAppend(a, b);
    HasFlagsAppend(b, a);
  }

  /** An argument that is not a recognised flag changes nothing. */
  lemma UnknownFlagIgnored(args: seq<string>, other: string)
    requires !IsFileFlag(other) && !IsDirectoryFlag(other) && !IsExactFlag(other)
    ensures ParseFlags(args + [other]) == ParseFlags(args)
  {
    HasFlagsAppend(args, [other]);
  }
}
