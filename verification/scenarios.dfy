/**
  Worked cases of the whole search on a small home directory holding the
  directories `a` and `ab` and the files `a.txt` and `b.txt`, wherever that
  home directory sits.
 */
module Scenarios {
  import opened Optional
  import opened Strings
  import opened Paths
  import opened FileTree
  import opened Walker
  import opened Matcher

  function SmallHome(): Node
  {
    Dir("u", true, [Dir("a", true, []), Dir("ab", true, []), File("a.txt"), File("b.txt")])
  }

  /** Listing the home directory: its two directories become the frontier
      and its two files are found, in listing order. */
  lemma ClassifySmallHome(home: string)
    ensures Classify(home, SmallHome().children)
         == ([Entry(ChildPath(home, "a"), Dir("a", true, [])), Entry(ChildPath(home, "ab"), Dir("ab", true, []))],
             [ChildPath(home, "a.txt"), ChildPath(home, "b.txt")])
  {
    var cs := SmallHome().children;
    var a, ab := Entry(ChildPath(home, "a"), cs[0]), Entry(ChildPath(home, "ab"), cs[1]);
    var fa, fb := ChildPath(home, "a.txt"), ChildPath(home, "b.txt");
    assert cs[3..][1..] == [] && cs[2..][1..] == cs[3..] && cs[1..][1..] == cs[2..];
    assert Classify(home, []) == ([], []);
    assert cs[0].name == "a" && cs[1].name == "ab" && cs[2].name == "a.txt" && cs[3].name == "b.txt";
    assert [fb] + [] == [fb] && [fa] + [fb] == [fa, fb] && [ab] + [] == [ab] && [a] + [ab] == [a, ab];
    assert Classify(home, cs[3..]) == ([], [ChildPath(home, cs[3].name)] + []);
    assert Classify(home, cs[2..]) == ([], [ChildPath(home, cs[2].name)] + [fb]);
    assert Classify(home, cs[1..]) == ([Entry(ChildPath(home, cs[1].name), cs[1])] + [], [fa, fb]);
    assert Classify(home, cs) == ([Entry(ChildPath(home, cs[0].name), cs[0])] + [ab], [fa, fb]);
  }

  /** The walk lists the root, its two directories, then its two files, and
      stops after one round because both directories are empty. */
  lemma SmallHomeWalk(home: string)
    ensures Walk(home, SmallHome())
         == Found([home, ChildPath(home, "a"), ChildPath(home, "ab")],
                  [ChildPath(home, "a.txt"), ChildPath(home, "b.txt")])
  {
    ClassifySmallHome(home);
    var first := Classify(home, SmallHome().children);
    var f := first.0;
    assert ListEntry(f[0]) == ([], []) && ListEntry(f[1]) == ([], []);
    assert f[1..][1..] == [];
    assert ScanLevel(f[1..]) == ([], []);
    assert ScanLevel(f) == ([], []);
    assert PathsOf(f) == [f[0].path, f[1].path];
    var d := [home] + PathsOf(f);
    assert PathsOf([]) == [];
    assert Loop(f, d, first.1) == Loop([], d + [], first.1 + []);
    assert d + [] == d && first.1 + [] == first.1;
    assert Listing(SmallHome()) == Some(SmallHome().children);
  }

  /** Which of the names in the small home directory contain "a". */
  lemma NamesContainingA()
    ensures !Contains("u", "a") && Contains("ab", "a") && Contains("a.txt", "a") && !Contains("b.txt", "a")
  {
    assert "a" <= "ab"[0..] && "a" <= "a.txt"[0..];
    var b := "b.txt";
    forall i | 0 <= i <= |b| ensures !("a" <= b[i..]) {
      if i < |b| { assert b[i..][0] == b[i]; }
    }
    forall i | 0 <= i <= 1 ensures !("a" <= "u"[i..]) {
      if i < 1 { assert "u"[i..][0] == 'u'; }
    }
  }

  /** The substring filter over a single path. */
  lemma MatchesOfOne(p: string, query: string)
    ensures SubstringMatches([p], query) == if Contains(BaseName(p), query) then [p] else []
  {
    SubstringMatchesStep([p], query);
    assert [p][1..] == [];
  }

  /** The substring filter over two paths that both match. */
  lemma BothMatch(p0: string, p1: string, query: string)
    requires Contains(BaseName(p0), query) && Contains(BaseName(p1), query)
    ensures SubstringMatches([p0, p1], query) == [p0, p1]
  {
    MatchesOfOne(p0, query);
    MatchesOfOne(p1, query);
    SubstringMatchesAppend([p0], [p1], query);
    assert [p0] + [p1] == [p0, p1];
  }

  /** The substring filter over two paths of which only the first matches. */
  lemma FirstOfTwoMatches(p0: string, p1: string, query: string)
    requires Contains(BaseName(p0), query) && !Contains(BaseName(p1), query)
    ensures SubstringMatches([p0, p1], query) == [p0]
  {
    MatchesOfOne(p0, query);
    MatchesOfOne(p1, query);
    SubstringMatchesAppend([p0], [p1], query);
    assert [p0] + [p1] == [p0, p1];
  }

  /** The home directory's own name "u" does not match "a". */
  lemma HomeDoesNotMatch(home: string)
    requires BaseName(home) == "u"
    ensures SubstringMatches([home], "a") == []
  {
    NamesContainingA();
    MatchesOfOne(home, "a");
  }

  /** Both subdirectories match "a". */
  lemma SubdirsMatch(home: string)
    ensures SubstringMatches([ChildPath(home, "a"), ChildPath(home, "ab")], "a")
         == [ChildPath(home, "a"), ChildPath(home, "ab")]
  {
    NamesContainingA();
    ContainsSelf("a");
    BothMatch(ChildPath(home, "a"), ChildPath(home, "ab"), "a");
  }

  lemma DirMatches(home: string)
    requires BaseName(home) == "u"
    ensures SubstringMatches([home, ChildPath(home, "a"), ChildPath(home, "ab")], "a")
         == [ChildPath(home, "a"), ChildPath(home, "ab")]
  {
    HomeDoesNotMatch(home);
    SubdirsMatch(home);
    PrependNonMatch(home, ChildPath(home, "a"), ChildPath(home, "ab"), "a");
  }

  /** A path that does not match, put before two others, drops out. */
  lemma PrependNonMatch(p0: string, p1: string, p2: string, query: string)
    requires SubstringMatches([p0], query) == []
    ensures SubstringMatches([p0, p1, p2], query) == SubstringMatches([p1, p2], query)
  {
    SubstringMatchesAppend([p0], [p1, p2], query);
    assert [p0] + [p1, p2] == [p0, p1, p2];
  }

  lemma FileMatches(home: string)
    ensures SubstringMatches([ChildPath(home, "a.txt"), ChildPath(home, "b.txt")], "a") == [ChildPath(home, "a.txt")]
  {
    NamesContainingA();
    FirstOfTwoMatches(ChildPath(home, "a.txt"), ChildPath(home, "b.txt"), "a");
  }

  /** The substring search for "a" over that walk: `a` and `ab` (not the
      root `u`), then `a.txt` (not `b.txt`). */
  lemma SmallHomeSubstringSearch(home: string)
    requires BaseName(home) == "u"
    ensures SearchSystem([home, ChildPath(home, "a"), ChildPath(home, "ab")],
                         [ChildPath(home, "a.txt"), ChildPath(home, "b.txt")], "a", SearchBoth, false)
         == [ChildPath(home, "a"), ChildPath(home, "ab"), ChildPath(home, "a.txt")]
  {
    var dirs := [home, ChildPath(home, "a"), ChildPath(home, "ab")];
    var files := [ChildPath(home, "a.txt"), ChildPath(home, "b.txt")];
    SearchBothUnfolds(dirs, files, "a", false);
    DirMatches(home);
    FileMatches(home);
  }

  /** The exact search for "a" keeps only the directory `a`. */
  lemma SmallHomeExactSearch(home: string)
    requires BaseName(home) == "u"
    ensures SearchSystem([home, ChildPath(home, "a"), ChildPath(home, "ab")],
                         [ChildPath(home, "a.txt"), ChildPath(home, "b.txt")], "a", SearchBoth, true)
         == [ChildPath(home, "a")]
  {
    var dirs := [home, ChildPath(home, "a"), ChildPath(home, "ab")];
    var files := [ChildPath(home, "a.txt"), ChildPath(home, "b.txt")];
    SmallHomeSubstringSearch(home);
    ExactPassAfterSearch(dirs, files, "a", SearchBoth);
    ExactAmongMatches(home);
  }

  lemma ExactAmongMatches(home: string)
    ensures ExactMatches([ChildPath(home, "a"), ChildPath(home, "ab"), ChildPath(home, "a.txt")], "a")
         == [ChildPath(home, "a")]
  {
    OnlyFirstIsExact(ChildPath(home, "a"), ChildPath(home, "ab"), ChildPath(home, "a.txt"), "a");
  }

  /** The exact filter over three paths of which only the first matches. */
  lemma OnlyFirstIsExact(p0: string, p1: string, p2: string, query: string)
    requires BaseName(p0) == query && BaseName(p1) != query && BaseName(p2) != query
    ensures ExactMatches([p0, p1, p2], query) == [p0]
  {
    var ps := [p0, p1, p2];
    assert ps[1..] == [p1, p2] && ps[2..] == [p2] && ps[2..][1..] == [];
    ExactMatchesStep(ps[2..], query);
    ExactMatchesStep(ps[1..], query);
    ExactMatchesStep(ps, query);
    assert ExactMatches(ps[2..], query) == [] + [];
    assert ExactMatches(ps[1..], query) == [] + [];
    assert ExactMatches(ps, query) == [p0] + [];
  }
}
