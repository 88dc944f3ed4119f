# pysys_search: the walk and the matcher, in Dafny

`search.py` is a command-line file-system search. It lists every directory
and file under the user's home directory breadth-first. It keeps the entries
whose base name contains the query, or, as intended, equals it when the exact flag is set.
Directories come before files, and the search type can restrict the search to
one kind. It then prints the matches, writes them to a results file, or prints
a notice that nothing was found.

The flag rule of lines 70-85 (`-f`, `-d`, `-e` and their long forms) is the
rule the script evidently intends, and the model states it over a given list
of flags. As written, the command line never reaches it with a flag: with
exactly two arguments `real_args` stays empty, and with three or more the
loop of lines 67-68 never ends. So the script as written only ever runs a
non-exact search of both kinds.

This project models that core as pure functions over an immutable tree and
proves what the script promises of it:

- `strings.dfy` (`Strings`): Python's `str.split` on one character, its
  inverse `Join`, and the substring test `in`.
- `paths.dfy` (`Paths`): a child's path `parent + '/' + name`, and the base
  name (the last piece of `split('/')`).
- `optional.dfy` (`Optional`): `Option`, used for calls that may raise.
- `tree.dfy` (`FileTree`): the file system as a finite tree. Each node is one
  of three kinds:
  - a directory, with a flag saying whether `os.listdir` succeeds on it;
  - a file;
  - an entry that is neither (`isdir` and `isfile` both false).
- `walker.dfy` (`Walker`): `recursive_search` as a level-by-level loop over a
  frontier.
- `walk_order.dfy` (`WalkOrder`): an independent breadth-first description of
  the walk, read off the tree depth by depth. It holds the theorems that the
  walk produces exactly that description, that it stops when a level holds no
  directories, and that no path is reported both as a directory and as a file.
- `matcher.dfy` (`Matcher`): `search_system`. It holds the substring filter,
  the exact filter as intended, and the exact pass as written at line 165.
- `flags.dfy` (`Flags`): the flag rule of lines 70-85.
- `report.dfy` (`Report`): the routing by result count, and the text of the
  results file together with a reader that recovers the results from it.
- `scenarios.dfy` (`Scenarios`): a home directory holding `a/`, `ab/`,
  `a.txt` and `b.txt`, walked and searched for "a".

Three behaviours of `recursive_search` and `search_system` shape the model:

- An empty root does not give a directory list holding the root. The walk
  returns `(None, None)` instead (lines 102-104), modelled as
  `WalkResult.NoEntries`.
- The listing of the root (line 97) sits outside the `try`, so a root that
  cannot be listed ends the script. This is modelled as
  `WalkResult.RootListingFailed`. A deeper directory whose listing raises is
  skipped (lines 116-126).
- The model's `SearchSystem` uses the corrected exact pass. The pass as
  written is modelled separately and logged under Findings.

## Model

| member | source | states |
|---|---|---|
| Strings.Split | search.py:142 | `split` gives at least one piece, and no piece contains the separator |
| Strings.JoinSplit | search.py:142 | joining the pieces of `split` with the separator gives back the original string |
| Strings.SplitJoin | search.py:142 | splitting a join of separator-free pieces gives back exactly those pieces |
| Strings.Contains | search.py:144 | `query in name` holds exactly when the query occurs at some position of the name; the empty query occurs everywhere |
| Strings.ContainsSelf | search.py:166 | a name equal to the query also contains it, so every exact match is a substring match |
| Paths.ChildPath | search.py:106 | the base name of a child's path is the child's name whenever the name has no '/' |
| Paths.BaseName | search.py:142-143 | the base name is a suffix of the path with no '/', and it is either the whole path or preceded by '/' |
| FileTree.Listing | search.py:117 | a listing succeeds exactly on a listable directory and then yields exactly that directory's children, which are smaller than it; on a file, an unlistable directory or an entry of neither kind it raises |
| Walker.Classify | search.py:105-111 | what a listing puts in the frontier is only directories, and they are smaller than the listing |
| Walker.ClassifyAppend | search.py:105-111 | entries go to the two accumulators in listing order: classifying two runs one after the other is classifying the whole listing |
| Walker.ClassifyDirs | search.py:105-109 | the frontier entries of a listing are exactly its directories, each under the path `parent/name` |
| Walker.ClassifyFiles | search.py:110-111 | the file paths of a listing are exactly `parent/name` for its files |
| Walker.ClassifyCounts | search.py:105-111 | each entry goes to at most one accumulator, and to exactly one when every entry is a directory or a file |
| Walker.ListEntry | search.py:116-126 | a frontier directory whose listing raises contributes nothing; otherwise everything it yields is smaller than it |
| Walker.ScanLevel | search.py:114-124 | one round of the loop puts only directories in the next frontier, as only `isdir` entries are appended to `next_dir` |
| Walker.ScanLevelShrinks | search.py:113-128 | each round shrinks what is left to visit by at least one entry per frontier directory, so the loop ends |
| Walker.ScanLevelAppend | search.py:115-124 | a round lists the frontier directories in order, and their contributions are concatenated in that order |
| Walker.SkipUnlistable | search.py:115-126 | removing a frontier directory whose listing raises leaves the round's result unchanged, so every other directory is still processed |
| Walker.Loop | search.py:113-128 | the loop only appends: what was discovered before a round stays, in place, at the front of both lists |
| Walker.Walk | search.py:95-131 | the walk crashes exactly when the root cannot be listed, and returns "no entries" exactly when the root is empty; otherwise the directory list starts with the root |
| WalkOrder.NothingBelowSize | search.py:113-128 | no entry lies deeper below a node than the node's size, so the breadth-first levels run out |
| WalkOrder.BreadthFirstComplete | search.py:113-128 | reading the breadth-first order to any depth beyond the root's size adds nothing to it |
| WalkOrder.ScanLevelBelow | search.py:115-124 | the directories k+1 levels below a frontier are those k levels below the next frontier |
| WalkOrder.ScanLevelBelowFiles | search.py:118-124 | the files a round finds are exactly the files one level below the frontier, in order |
| WalkOrder.LoopDirs | search.py:113-128 | starting from a frontier, the loop appends all directory levels 1, 2, ... below it, shallower levels first |
| WalkOrder.LoopFiles | search.py:113-128 | starting from a frontier, the loop appends all file levels 1, 2, ... below it, shallower levels first |
| WalkOrder.WalkIsBreadthFirst | search.py:95-131 | both lists the walk returns are exactly the breadth-first order: the root, then everything one level down, then two levels down, and so on, reaching only through listable directories |
| WalkOrder.EmptyLevelEndsWalk | search.py:113 | once a level holds no directories, every deeper level is empty |
| WalkOrder.LoopContinuesIffDirsBelow | search.py:113-128 | the loop goes round again exactly when the next level holds directories |
| WalkOrder.KindsDisjoint | search.py:107-111 | in a well-formed tree, a path found as a directory at any depth is never found as a file at any depth |
| WalkOrder.WalkKindsDisjoint | search.py:95-131 | on a well-formed tree, no path is in both lists the walk returns |
| Matcher.SubstringMatches | search.py:141-145 | the kept paths are the paths whose base name contains the query, in their original order, each as many times as it occurs in the input; the others are dropped entirely |
| Matcher.ExactMatches | search.py:161-169 | the intended exact filter keeps the paths whose base name equals the query, in their original order, each as many times as it occurs in the input; the others are dropped entirely |
| Matcher.Group | search.py:139-158 | a group contributes, in order and with their multiplicity, the paths whose base name contains the query when the search type includes it, and nothing otherwise |
| Matcher.SubstringMatchesAppend | search.py:141-147 | filtering two lists one after the other is filtering their concatenation |
| Matcher.SubstringMatchesIdempotent | search.py:141-145 | filtering the matches again changes nothing |
| Matcher.ExactAfterSubstring | search.py:161-169 | the exact pass over the substring matches keeps what it would keep over all paths |
| Matcher.SearchSystem | search.py:135-171 | a path is returned exactly when its group takes part in the search and its base name matches, as many times as the taking-part groups hold it. The result is the matching directories in walk order followed by the matching files in walk order, and a one-kind search returns only that kind |
| Matcher.ExactPassAfterSearch | search.py:161-171 | the exact search is the exact pass applied to the full results of the non-exact search |
| Matcher.ExactRefinesSubstring | search.py:161-169 | the exact result is an ordered subsequence of the non-exact result, and every entry's base name is the query |
| Matcher.PyIndex | search.py:165 | Python indexing succeeds exactly for indices from `-len` to `len - 1`; it yields the element at that index for non-negative ones and the element `len + i` for negative ones |
| Matcher.ExactPassReading | search.py:161-169 | the exact-pass loop, reading index `len(split_path) - back`: with `back` = 1 it never raises, and whatever it returns is an ordered subsequence of the results |
| Matcher.ExactPassAsWrittenRaises | search.py:165 | the exact pass as written raises IndexError on every non-empty result list |
| Matcher.ExactPassAsWrittenExample | search.py:165 | the exact pass as written raises on the single result `/home/u/a` sought as "a" |
| Matcher.ExactPassIntended | search.py:161-169 | reading the last piece instead of index `len(split_path)`, the loop returns exactly the exact matches |
| Flags.ScanFlags | search.py:72-79 | after the loop, each of the three booleans is set exactly when a flag of its kind appears |
| Flags.DecideSearchType | search.py:80-85 | the search includes directories unless only the file flag was given, and files unless only the directory flag was given |
| Flags.ParseFlags | search.py:70-85 | directory flag only selects directories, file flag only selects files, both or neither selects both, and any exact flag turns on the exact pass |
| Flags.FlagOrderIrrelevant | search.py:72-79 | the order of the flags does not matter |
| Flags.UnknownFlagIgnored | search.py:72-79 | an argument that is not a recognised flag changes nothing |
| Report.FileContent | search.py:190-193 | the results file is the header `RESULTS:` and a blank line, then every result in order, each followed by a newline; this holds whatever characters the results contain |
| Report.FileContentRoundTrip | search.py:190-195 | when no result contains a newline, reading the results file back yields exactly the results, in order |
| Report.Route | search.py:178-196 | no results gives the notice `Search returned no results...`, 1 to 24 results are printed one per line, and 25 or more go to the file. The file's notice names the output file, its content is the results file text `FileContent` (the header followed by every result and a newline), and when no result contains a newline that content reads back as the results |
| Scenarios.SmallHomeWalk | search.py:95-131 | walking a home directory with `a/`, `ab/`, `a.txt` and `b.txt` gives the home, `a`, `ab` as directories and `a.txt`, `b.txt` as files |
| Scenarios.SmallHomeSubstringSearch | search.py:135-171 | searching that walk for "a" returns `a`, `ab`, then `a.txt` |
| Scenarios.SmallHomeExactSearch | search.py:161-169 | the exact search for "a" over that walk returns only `a` |

## Left out

- File-system calls (`os.listdir`, `os.path.isdir`, `os.path.isfile`) are replaced by a finite tree. The tree is frozen, so changes made to the file system during the walk are not modelled. Symlink cycles cannot occur in a finite tree.
- Logging, `print`, creating the output directory, and opening and writing the results file (lines 22, 37-45, 194-196) are not modelled. Only the text that would be printed or written is.
- Reading `HOME` and the fixed output paths (lines 29-35, 47) are not modelled. The search root and the output file name are parameters.
- The `sys.argv` handling (lines 52-69) is left out; only the flag rule over a given list of flags is modelled. As written, with exactly two arguments `real_args` stays empty. With three or more, the `while` loop never ends, because `read_arg` is never incremented. A non-terminating loop has no useful functional model, and the flags it would collect are what `Flags.ParseFlags` takes as input.
- The TypeError raised when `search_system` iterates the `None` of an empty root (line 141, or line 152 for a file-only search) is not modelled; the walk's `NoEntries` result stands for that case.
- Walker.Walk: its own contract states only the root-first and error cases. The order and contents of both lists are stated by `WalkOrder.WalkIsBreadthFirst`.
- WalkOrder.WalkKindsDisjoint: assumes a well-formed tree, one with distinct sibling names and no '/' in any name, as a real file system guarantees. On other trees two entries can produce the same path.

## Findings

| source | as written | input that shows it | evidently intended | confidence | as-written member | corrected member |
|---|---|---|---|---|---|---|
| search.py:165 | `check_string = split_path[len(split_path)]` reads one past the last piece, so IndexError is raised for every result | `search_system` reached with `search_exact` True and a non-empty `full_results`, such as `/home/u/a` sought as "a": `split` gives 4 pieces and index 4 does not exist. Unreachable from the command line as written (lines 63-69) | `split_path[len(split_path) - 1]`, the base name, as on lines 143 and 154 | high (not executed) | Matcher.ExactPassReading with `back` = 0, shown to raise by Matcher.ExactPassAsWrittenRaises | Matcher.ExactPassIntended |
