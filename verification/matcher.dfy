/**
  The matcher of `search_system`: keep, in walk order, the directories and
  then the files whose base name contains the query, and optionally narrow
  that list to the entries whose base name equals the query.
 */
module Matcher {
  import opened Optional
  import opened Strings
  import opened Paths

  /** The script's DIRECTORY_SEARCH (0), FILE_SEARCH (1) and SEARCH_BOTH (2). */
  datatype SearchType = DirectorySearch | FileSearch | SearchBoth
  {
    predicate IncludesDirs() { this == DirectorySearch || this == SearchBoth }
    predicate IncludesFiles() { this == FileSearch || this == SearchBoth }
  }

  /** `xs` is `ys` with some elements left out, the rest kept in order. */
  ghost predicate IsSubsequence<T>(xs: seq<T>, ys: seq<T>)
    decreases |ys|
  {
    if ys == [] then xs == []
    else (xs != [] && xs[0] == ys[0] && IsSubsequence(xs[1..], ys[1..])) || IsSubsequence(xs, ys[1..])
  }

  /** The substring filter of lines 141-145 and 152-156: the paths whose base
      name contains the query, in their original order. */
  function SubstringMatches(paths: seq<string>, query: string): (r: seq<string>)
    ensures IsSubsequence(r, paths)
    ensures forall x :: x in r <==> x in paths && Contains(BaseName(x), query)
    ensures forall x :: multiset(r)[x] == if Contains(BaseName(x), query) then multiset(paths)[x] else 0
  {
    if paths == [] then []
    else
      var rest := SubstringMatches(paths[1..], query);
      assert paths == [paths[0]] + paths[1..];
      assert multiset(paths) == multiset{paths[0]} + multiset(paths[1..]);
      assert forall x :: x in paths <==> x == paths[0] || x in paths[1..];
      if Contains(BaseName(paths[0]), query) then
        assert multiset([paths[0]] + rest) == multiset{paths[0]} + multiset(rest);
        [paths[0]] + rest
      else rest
  }

  /** The exact filter, as intended: the paths whose base name equals the
      query, in their original order. */
  function ExactMatches(paths: seq<string>, query: string): (r: seq<string>)
    ensures IsSubsequence(r, paths)
    ensures forall x :: x in r <==> x in paths && BaseName(x) == query
    ensures forall x :: multiset(r)[x] == if BaseName(x) == query then multiset(paths)[x] else 0
  {
    if paths == [] then []
    else
      var rest := ExactMatches(paths[1..], query);
      assert paths == [paths[0]] + paths[1..];
      assert multiset(paths) == multiset{paths[0]} + multiset(paths[1..]);
      assert forall x :: x in paths <==> x == paths[0] || x in paths[1..];
      if BaseName(paths[0]) == query then
        assert multiset([paths[0]] + rest) == multiset{paths[0]} + multiset(rest);
        [paths[0]] + rest
      else rest
  }

  lemma {:induction false} SubstringMatchesAppend(a: seq<string>, b: seq<string>, query: string)
    ensures SubstringMatches(a + b, query) == SubstringMatches(a, query) + SubstringMatches(b, query)
    decreases |a|
  {
    if a == [] {
      assert a + b == b;
    } else {
      assert (a + b)[0] == a[0];
      assert (a + b)[1..] == a[1..] + b;
      SubstringMatchesAppend(a[1..], b, query);
    }
  }

  lemma {:induction false} ExactMatchesAppend(a: seq<string>, b: seq<string>, query: string)
    ensures ExactMatches(a + b, query) == ExactMatches(a, query) + ExactMatches(b, query)
    decreases |a|
  {
    if a == [] {
      assert a + b == b;
    } else {
      assert (a + b)[0] == a[0];
      assert (a + b)[1..] == a[1..] + b;
      ExactMatchesAppend(a[1..], b, query);
    }
  }

  /** Matching the matches again changes nothing. */
  lemma {:induction false} SubstringMatchesIdempotent(paths: seq<string>, query: string)
    ensures SubstringMatches(SubstringMatches(paths, query), query) == SubstringMatches(paths, query)
    decreases |paths|
  {
    if paths != [] {
      SubstringMatchesIdempotent(paths[1..], query);
      var rest := SubstringMatches(paths[1..], query);
      if Contains(BaseName(paths[0]), query) {
        assert ([paths[0]] + rest)[0] == paths[0];
        assert ([paths[0]] + rest)[1..] == rest;
      }
    }
  }

  /** An exact match is a substring match, so the exact pass over the
      substring matches keeps what it would keep over all paths. */
  lemma {:induction false} ExactAfterSubstring(paths: seq<string>, query: string)
    ensures ExactMatches(SubstringMatches(paths, query), query) == ExactMatches(paths, query)
    decreases |paths|
  {
    if paths != [] {
      ExactAfterSubstring(paths[1..], query);
      var rest := SubstringMatches(paths[1..], query);
      if BaseName(paths[0]) == query {
        ContainsSelf(query);
      }
      if Contains(BaseName(paths[0]), query) {
        assert ([paths[0]] + rest)[0] == paths[0];
        assert ([paths[0]] + rest)[1..] == rest;
      }
    }
  }

  lemma {:induction false} EmptySubsequence<T>(ys: seq<T>)
    ensures IsSubsequence([], ys)
    decreases |ys|
  {
    if ys != [] {
      EmptySubsequence(ys[1..]);
    }
  }

  /** One group's contribution to `full_results` (lines 139-147 for the
      directories, 150-158 for the files): its substring matches when the
      search type includes the group, nothing otherwise. */
  function Group(paths: seq<string>, query: string, included: bool): (g: seq<string>)
    ensures IsSubsequence(g, paths)
    ensures forall x :: multiset(g)[x] == if included && Contains(BaseName(x), query) then multiset(paths)[x] else 0
  {
    if included then SubstringMatches(paths, query)
    else
      EmptySubsequence(paths);
      []
  }

  /** The name test of the search: base name equal to the query when `exact`
      is set, base name containing it otherwise. */
  predicate NameMatches(x: string, query: string, exact: bool)
  {
    if exact then BaseName(x) == query else Contains(BaseName(x), query)
  }

  /** `r` holds each path as often as the taking-part groups hold it, when its
      name matches, and not at all otherwise. */
  ghost predicate CountsMatch(r: seq<string>, dirs: seq<string>, files: seq<string>, query: string,
                              inDirs: bool, inFiles: bool, exact: bool)
  {
    forall x :: multiset(r)[x] ==
      (if NameMatches(x, query, exact)
       then (if inDirs then multiset(dirs)[x] else 0) + (if inFiles then multiset(files)[x] else 0)
       else 0)
  }

  /** The results before the exact pass: both groups' contributions, in order. */
  lemma SubstringGroups(dirs: seq<string>, files: seq<string>, query: string, inDirs: bool, inFiles: bool)
    ensures CountsMatch(Group(dirs, query, inDirs) + Group(files, query, inFiles), dirs, files, query, inDirs, inFiles, false)
  {
    var d, f := Group(dirs, query, inDirs), Group(files, query, inFiles);
    assert multiset(d + f) == multiset(d) + multiset(f);
  }

  /** The results after the exact pass: each group's exact matches, in order. */
  lemma ExactGroups(dirs: seq<string>, files: seq<string>, query: string, inDirs: bool, inFiles: bool)
    ensures var d, f := Group(dirs, query, inDirs), Group(files, query, inFiles);
      && ExactMatches(d + f, query) == ExactMatches(d, query) + ExactMatches(f, query)
      && CountsMatch(ExactMatches(d + f, query), dirs, files, query, inDirs, inFiles, true)
      && IsSubsequence(ExactMatches(d, query), dirs)
      && IsSubsequence(ExactMatches(f, query), files)
  {
    var d, f := Group(dirs, query, inDirs), Group(files, query, inFiles);
    ExactMatchesAppend(d, f, query);
    ExactSubsequence(dirs, query, inDirs);
    ExactSubsequence(files, query, inFiles);
    var ed, ef := ExactMatches(d, query), ExactMatches(f, query);
    assert multiset(ed + ef) == multiset(ed) + multiset(ef);
    ContainsSelf(query);
  }

  /** The exact matches among a group's contribution are an ordered
      subsequence of the group. */
  lemma ExactSubsequence(group: seq<string>, query: string, included: bool)
    ensures IsSubsequence(ExactMatches(Group(group, query, included), query), group)
  {
    if included {
      ExactAfterSubstring(group, query);
    } else {
      EmptySubsequence(group);
    }
  }

  /** A path occurs in the results exactly when they count it at least once. */
  lemma CountsGiveMembers(r: seq<string>, dirs: seq<string>, files: seq<string>, query: string,
                          inDirs: bool, inFiles: bool, exact: bool)
    requires CountsMatch(r, dirs, files, query, inDirs, inFiles, exact)
    ensures forall x :: x in r <==> NameMatches(x, query, exact) && ((inDirs && x in dirs) || (inFiles && x in files))
  {
    forall x
      ensures x in r <==> NameMatches(x, query, exact) && ((inDirs && x in dirs) || (inFiles && x in files))
    {
      assert x in r <==> x in multiset(r);
      assert x in dirs <==> x in multiset(dirs);
      assert x in files <==> x in multiset(files);
    }
  }

  /** Everything `SearchSystem` promises, for the search type's two flags. */
  lemma SearchFacts(dirs: seq<string>, files: seq<string>, query: string, inDirs: bool, inFiles: bool, exact: bool)
    ensures var d, f := Group(dirs, query, inDirs), Group(files, query, inFiles);
      var r := if exact then ExactMatches(d + f, query) else d + f;
      && CountsMatch(r, dirs, files, query, inDirs, inFiles, exact)
      && (forall x :: x in r <==> NameMatches(x, query, exact) && ((inDirs && x in dirs) || (inFiles && x in files)))
      && (exists k :: 0 <= k <= |r| && IsSubsequence(r[..k], dirs) && IsSubsequence(r[k..], files))
      && (!inDirs ==> IsSubsequence(r, files))
      && (!inFiles ==> IsSubsequence(r, dirs))
  {
    var d, f := Group(dirs, query, inDirs), Group(files, query, inFiles);
    if exact {
      ExactGroups(dirs, files, query, inDirs, inFiles);
      var ed, ef := ExactMatches(d, query), ExactMatches(f, query);
      var r := ed + ef;
      CountsGiveMembers(r, dirs, files, query, inDirs, inFiles, exact);
      assert r[..|ed|] == ed && r[|ed|..] == ef;
      if !inDirs {
        assert r == ef;
      }
      if !inFiles {
        assert r == ed;
      }
    } else {
      SubstringGroups(dirs, files, query, inDirs, inFiles);
      var r := d + f;
      CountsGiveMembers(r, dirs, files, query, inDirs, inFiles, exact);
      assert r[..|d|] == d && r[|d|..] == f;
      if !inDirs {
        assert r == f;
      }
      if !inFiles {
        assert r == d;
      }
    }
  }

  /** `search_system` over the walk's two lists: the substring matches among
      the directories (when the search type includes directories), then those
      among the files (when it includes files), narrowed to exact base-name
      matches when `exact` is set. */
  function SearchSystem(dirs: seq<string>, files: seq<string>, query: string, searchType: SearchType, exact: bool)
    : (r: seq<string>)
    ensures forall x :: (multiset(r)[x] ==
      if NameMatches(x, query, exact)
      then (if searchType.IncludesDirs() then multiset(dirs)[x] else 0)
         + (if searchType.IncludesFiles() then multiset(files)[x] else 0)
      else 0)
    ensures forall x :: x in r <==>
      && NameMatches(x, query, exact)
      && ((searchType.IncludesDirs() && x in dirs) || (searchType.IncludesFiles() && x in files))
    ensures exists k :: 0 <= k <= |r| && IsSubsequence(r[..k], dirs) && IsSubsequence(r[k..], files)
    ensures !searchType.IncludesDirs() ==> IsSubsequence(r, files)
    ensures !searchType.IncludesFiles() ==> IsSubsequence(r, dirs)
  {
    var inDirs, inFiles := searchType.IncludesDirs(), searchType.IncludesFiles();
    var d, f := Group(dirs, query, inDirs), Group(files, query, inFiles);
    SearchFacts(dirs, files, query, inDirs, inFiles, exact);
    if exact then ExactMatches(d + f, query) else d + f
  }

  /** The exact search keeps, in order, a part of what the substring search
      returns, and only entries whose base name is the query. */
  lemma ExactRefinesSubstring(dirs: seq<string>, files: seq<string>, query: string, searchType: SearchType)
    ensures IsSubsequence(SearchSystem(dirs, files, query, searchType, true),
                          SearchSystem(dirs, files, query, searchType, false))
    ensures forall x :: x in SearchSystem(dirs, files, query, searchType, true) ==> BaseName(x) == query
  {
    var full := SearchSystem(dirs, files, query, searchType, false);
    assert SearchSystem(dirs, files, query, searchType, true) == ExactMatches(full, query);
  }

  // ---------------------------------------------------------------------
  // The exact pass as written
  // ---------------------------------------------------------------------

  /** Python's `xs[i]`, negative indices counting from the end; `None` is the IndexError. */
  function PyIndex<T>(xs: seq<T>, i: int): (r: Option<T>)
    ensures r.Some? <==> -|xs| <= i < |xs|
    ensures 0 <= i < |xs| ==> r == Some(xs[i])
    ensures -|xs| <= i < 0 ==> r == Some(xs[|xs| + i])
  {
    if 0 <= i < |xs| then Some(xs[i])
    else if -|xs| <= i < 0 then Some(xs[|xs| + i])
    else None
  }

  /** The loop of lines 161-169 reading the base name at index
      `len(split_path) - back`: the source has `back` = 0, the evidently
      intended code `back` = 1. `None` is the IndexError that ends the script. */
  function ExactPassReading(results: seq<string>, query: string, back: nat): (r: Option<seq<string>>)
    ensures back == 1 ==> r.Some?
    ensures r.Some? ==> IsSubsequence(r.value, results)
  {
    if results == [] then Some([])
    else
      var parts := Split(results[0], Sep);
      match PyIndex(parts, |parts| - back)
      case None => None
      case Some(check) =>
        match ExactPassReading(results[1..], query, back)
        case None => None
        case Some(rest) =>
          if query == check then
            assert ([results[0]] + rest)[1..] == rest;
            Some([results[0]] + rest)
          else Some(rest)
  }

  /** As written, the exact pass raises on every non-empty list of results. */
  lemma ExactPassAsWrittenRaises(results: seq<string>, query: string)
    ensures ExactPassReading(results, query, 0).None? <==> results != []
  {
  }

  /** A concrete case: the directory `/home/u/a` sought exactly as "a". */
  lemma ExactPassAsWrittenExample()
    ensures ExactPassReading(["/home/u/a"], "a", 0) == None
  {
  }

  /** Reading the last piece instead, the pass computes `ExactMatches`. */
  lemma {:induction false} ExactPassIntended(results: seq<string>, query: string)
    ensures ExactPassReading(results, query, 1) == Some(ExactMatches(results, query))
    decreases |results|
  {
    if results != [] {
      ExactPassIntended(results[1..], query);
      IntendedPassStep(results, query);
      ExactMatchesStep(results, query);
    }
  }

  /** One turn of the intended exact pass: it keeps the first result exactly
      when its base name is the query, then carries on with the rest. */
  lemma IntendedPassStep(results: seq<string>, query: string)
    requires results != []
    requires ExactPassReading(results[1..], query, 1) == Some(ExactMatches(results[1..], query))
    ensures ExactPassReading(results, query, 1)
         == Some((if query == BaseName(results[0]) then [results[0]] else []) + ExactMatches(results[1..], query))
  {
    LastPieceIsBaseName(results[0]);
    if query != BaseName(results[0]) {
      assert [] + ExactMatches(results[1..], query) == ExactMatches(results[1..], query);
    }
  }

  /** Index `len(parts) - 1` of `path.split('/')` is the base name. */
  lemma LastPieceIsBaseName(path: string)
    ensures PyIndex(Split(path, Sep), |Split(path, Sep)| - 1) == Some(BaseName(path))
  {
  }

  /** One step of the exact filter. */
  lemma ExactMatchesStep(paths: seq<string>, query: string)
    requires paths != []
    ensures ExactMatches(paths, query)
         == (if query == BaseName(paths[0]) then [paths[0]] else []) + ExactMatches(paths[1..], query)
  {
    var rest := ExactMatches(paths[1..], query);
    if query != BaseName(paths[0]) {
      assert [] + rest == rest;
    }
  }

  /** One step of the substring filter. */
  lemma SubstringMatchesStep(paths: seq<string>, query: string)
    requires paths != []
    ensures SubstringMatches(paths, query)
         == (if Contains(BaseName(paths[0]), query) then [paths[0]] else []) + SubstringMatches(paths[1..], query)
  {
    var rest := SubstringMatches(paths[1..], query);
    if !Contains(BaseName(paths[0]), query) {
      assert [] + rest == rest;
    }
  }

  /** The exact search is the exact pass over the substring search. */
  lemma ExactPassAfterSearch(dirs: seq<string>, files: seq<string>, query: string, searchType: SearchType)
    ensures SearchSystem(dirs, files, query, searchType, true)
         == ExactMatches(SearchSystem(dirs, files, query, searchType, false), query)
  {
  }

  /** A search over both kinds concatenates the two groups' substring matches
      before the optional exact pass. */
  lemma SearchBothUnfolds(dirs: seq<string>, files: seq<string>, query: string, exact: bool)
    ensures var full := SubstringMatches(dirs, query) + SubstringMatches(files, query);
      SearchSystem(dirs, files, query, SearchBoth, exact) == if exact then ExactMatches(full, query) else full
  {
  }
}
