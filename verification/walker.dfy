/**
  The tree walk of `recursive_search`: list the root, then list every
  directory of the current frontier, level by level, until a level finds no
  directories. Discovered directory paths and file paths go into two ordered
  accumulators; a directory whose listing raises is skipped.
 */
module Walker {
  import opened Optional
  import opened Paths
  import opened FileTree

  /** A discovered entry: the path the script built for it and the tree node it names. */
  datatype Entry = Entry(path: string, node: Node)

  /** The two accumulators an entry can go to. */
  datatype Kind = DirKind | FileKind

  /** What `recursive_search` returns: a crash on the root listing, the
      `(None, None)` of an empty root, or the two lists. */
  datatype WalkResult =
    | RootListingFailed
    | NoEntries
    | Found(dirs: seq<string>, files: seq<string>)

  function PathsOf(es: seq<Entry>): (ps: seq<string>)
    ensures |ps| == |es|
    ensures forall i :: 0 <= i < |es| ==> ps[i] == es[i].path
  {
    if es == [] then [] else [es[0].path] + PathsOf(es[1..])
  }

  /** Total size of the subtrees a frontier still has to visit. */
  function FrontierSize(es: seq<Entry>): nat
  {
    if es == [] then 0 else Size(es[0].node) + FrontierSize(es[1..])
  }

  lemma {:induction false} FrontierSizeAppend(a: seq<Entry>, b: seq<Entry>)
    ensures FrontierSize(a + b) == FrontierSize(a) + FrontierSize(b)
    decreases |a|
  {
    if a == [] {
      assert a + b == b;
    } else {
      assert (a + b)[1..] == a[1..] + b;
      FrontierSizeAppend(a[1..], b);
    }
  }

  ghost predicate AllDirs(es: seq<Entry>)
  {
    forall i :: 0 <= i < |es| ==> es[i].node.Dir?
  }

  /** The loop over one listing of directory `parent`: each directory entry
      becomes a frontier entry (and so a discovered directory), each file
      entry a discovered file path, and anything else is dropped. */
  function Classify(parent: string, items: seq<Node>): (r: (seq<Entry>, seq<string>))
    ensures AllDirs(r.0)
    ensures FrontierSize(r.0) <= SizeAll(items)
  {
    if items == [] then ([], [])
    else
      var c := items[0];
      var rest := Classify(parent, items[1..]);
      var path := ChildPath(parent, c.name);
      if c.Dir? then ([Entry(path, c)] + rest.0, rest.1)
      else if c.File? then (rest.0, [path] + rest.1)
      else rest
  }

  /** Entries from a listing land in listing order: classifying two runs of a
      listing one after the other is classifying the whole listing. */
  lemma ClassifyAppend(parent: string, a: seq<Node>, b: seq<Node>)
    ensures Classify(parent, a + b)
         == (Classify(parent, a).0 + Classify(parent, b).0, Classify(parent, a).1 + Classify(parent, b).1)
  {
    ClassifyDirsAppend(parent, a, b);
    ClassifyFilesAppend(parent, a, b);
  }

  lemma {:induction false} ClassifyDirsAppend(parent: string, a: seq<Node>, b: seq<Node>)
    ensures Classify(parent, a + b).0 == Classify(parent, a).0 + Classify(parent, b).0
    decreases |a|
  {
    if a == [] {
      assert a + b == b;
    } else {
      var ab := a + b;
      assert ab[0] == a[0];
      assert ab[1..] == a[1..] + b;
      ClassifyDirsAppend(parent, a[1..], b);
      if a[0].Dir? {
        assert Classify(parent, ab).0
            == [Entry(ChildPath(parent, a[0].name), a[0])] + (Classify(parent, a[1..]).0 + Classify(parent, b).0);
      }
    }
  }

  lemma {:induction false} ClassifyFilesAppend(parent: string, a: seq<Node>, b: seq<Node>)
    ensures Classify(parent, a + b).1 == Classify(parent, a).1 + Classify(parent, b).1
    decreases |a|
  {
    if a == [] {
      assert a + b == b;
    } else {
      var ab := a + b;
      assert ab[0] == a[0];
      assert ab[1..] == a[1..] + b;
      ClassifyFilesAppend(parent, a[1..], b);
      if a[0].File? {
        assert Classify(parent, ab).1
            == [ChildPath(parent, a[0].name)] + (Classify(parent, a[1..]).1 + Classify(parent, b).1);
      }
    }
  }

  /** Every directory of a listing becomes a frontier entry under the path
      `parent/name`, and nothing else does. */
  lemma {:induction false} ClassifyDirs(parent: string, items: seq<Node>)
    ensures forall e :: e in Classify(parent, items).0 <==>
      e.node in items && e.node.Dir? && e.path == ChildPath(parent, e.node.name)
    decreases |items|
  {
    if items != [] {
      ClassifyDirs(parent, items[1..]);
      assert items == [items[0]] + items[1..];
    }
  }

  /** Every file of a listing becomes a discovered file path `parent/name`, and
      nothing else does. */
  lemma {:induction false} ClassifyFiles(parent: string, items: seq<Node>)
    ensures forall p :: p in Classify(parent, items).1 <==>
      exists c :: c in items && c.File? && p == ChildPath(parent, c.name)
    decreases |items|
  {
    if items != [] {
      ClassifyFiles(parent, items[1..]);
      assert items == [items[0]] + items[1..];
    }
  }

  /** Each entry of a listing goes to at most one accumulator, and to exactly
      one unless it is neither a directory nor a file. */
  lemma {:induction false} ClassifyCounts(parent: string, items: seq<Node>)
    ensures |Classify(parent, items).0| + |Classify(parent, items).1| <= |items|
    ensures (forall c :: c in items ==> !c.Other?) ==>
      |Classify(parent, items).0| + |Classify(parent, items).1| == |items|
    decreases |items|
  {
    if items != [] {
      ClassifyCounts(parent, items[1..]);
      assert forall c :: c in items[1..] ==> c in items;
    }
  }

  /** What listing one frontier entry contributes: nothing when its listing raises. */
  function ListEntry(e: Entry): (r: (seq<Entry>, seq<string>))
    ensures AllDirs(r.0)
    ensures FrontierSize(r.0) < Size(e.node)
    ensures Listing(e.node).None? ==> r == ([], [])
  {
    match Listing(e.node)
    case None => ([], [])
    case Some(items) => Classify(e.path, items)
  }

  /** One round of the `while` loop: list every frontier directory in order,
      collecting the next frontier and the files found. */
  function ScanLevel(frontier: seq<Entry>): (r: (seq<Entry>, seq<string>))
    ensures AllDirs(r.0)
  {
    if frontier == [] then ([], [])
    else
      var head := ListEntry(frontier[0]);
      var rest := ScanLevel(frontier[1..]);
      (head.0 + rest.0, head.1 + rest.1)
  }

  /** Each round of the loop strictly shrinks what is left to visit, by at
      least one entry per frontier directory; this is why the walk of a finite
      tree ends. */
  lemma {:induction false} ScanLevelShrinks(frontier: seq<Entry>)
    ensures FrontierSize(ScanLevel(frontier).0) + |frontier| <= FrontierSize(frontier)
    decreases |frontier|
  {
    if frontier != [] {
      ScanLevelShrinks(frontier[1..]);
      FrontierSizeAppend(ListEntry(frontier[0]).0, ScanLevel(frontier[1..]).0);
    }
  }

  /** Scanning two parts of a frontier one after the other is scanning the
      whole frontier: every directory is listed, in frontier order. */
  lemma ScanLevelAppend(a: seq<Entry>, b: seq<Entry>)
    ensures ScanLevel(a + b) == (ScanLevel(a).0 + ScanLevel(b).0, ScanLevel(a).1 + ScanLevel(b).1)
  {
    NextFrontierAppend(a, b);
    FoundFilesAppend(a, b);
  }

  lemma {:induction false} NextFrontierAppend(a: seq<Entry>, b: seq<Entry>)
    ensures ScanLevel(a + b).0 == ScanLevel(a).0 + ScanLevel(b).0
    decreases |a|
  {
    if a == [] {
      assert a + b == b;
    } else {
      var ab := a + b;
      assert ab[0] == a[0];
      assert ab[1..] == a[1..] + b;
      NextFrontierAppend(a[1..], b);
      assert ScanLevel(ab).0 == ListEntry(a[0]).0 + (ScanLevel(a[1..]).0 + ScanLevel(b).0);
    }
  }

  lemma {:induction false} FoundFilesAppend(a: seq<Entry>, b: seq<Entry>)
    ensures ScanLevel(a + b).1 == ScanLevel(a).1 + ScanLevel(b).1
    decreases |a|
  {
    if a == [] {
      assert a + b == b;
    } else {
      var ab := a + b;
      assert ab[0] == a[0];
      assert ab[1..] == a[1..] + b;
      FoundFilesAppend(a[1..], b);
      assert ScanLevel(ab).1 == ListEntry(a[0]).1 + (ScanLevel(a[1..]).1 + ScanLevel(b).1);
    }
  }

  /** A frontier directory whose listing raises contributes nothing, and the
      rest of the frontier is scanned as if it were not there. */
  lemma SkipUnlistable(before: seq<Entry>, e: Entry, after: seq<Entry>)
    requires Listing(e.node).None?
    ensures ScanLevel(before + [e] + after) == ScanLevel(before + after)
  {
    ScanLevelAppend(before + [e], after);
    ScanLevelAppend(before, [e]);
    ScanLevelAppend(before, after);
    assert [e][1..] == [];
    assert ScanLevel([e]).0 == [] && ScanLevel([e]).1 == [];
    assert ScanLevel(before + [e]).0 == ScanLevel(before).0;
    assert ScanLevel(before + [e]).1 == ScanLevel(before).1;
  }

  /** The `while` loop from a given frontier: each round appends the new
      frontier's paths to the directories and the round's files to the files. */
  function Loop(frontier: seq<Entry>, dirs: seq<string>, files: seq<string>): (r: (seq<string>, seq<string>))
    ensures dirs <= r.0 && files <= r.1
    decreases FrontierSize(frontier)
  {
    if frontier == [] then (dirs, files)
    else
      var next := ScanLevel(frontier);
      ScanLevelShrinks(frontier);
      Loop(next.0, dirs + PathsOf(next.0), files + next.1)
  }

  /** `recursive_search(rootPath)` on the tree `root`. */
  function Walk(rootPath: string, root: Node): (r: WalkResult)
    ensures r.RootListingFailed? <==> !(root.Dir? && root.listable)
    ensures r.NoEntries? <==> root.Dir? && root.listable && root.children == []
    ensures r.Found? ==> |r.dirs| >= 1 && r.dirs[0] == rootPath
  {
    match Listing(root)
    case None => RootListingFailed
    case Some(items) =>
      if |items| == 0 then NoEntries
      else
        var first := Classify(rootPath, items);
        var all := Loop(first.0, [rootPath] + PathsOf(first.0), first.1);
        Found(all.0, all.1)
  }
}
