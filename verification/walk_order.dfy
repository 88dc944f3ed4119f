/**
  An independent description of what the walk must produce, read off the
  tree directly: the entries at depth 0, then those at depth 1, and so on,
  reaching only through directories that can be listed. The theorems below
  show that `Walker.Walk` produces exactly this, that a level without
  directories ends the walk, and that on a well-formed tree no path is both
  a directory and a file.
 */
module WalkOrder {
  import opened Paths
  import opened FileTree
  import opened Walker

  /** The paths of the `kind` entries exactly `depth` levels below the entry
      `n` at `path`, reached only through listable directories, in listing order. */
  function Below(n: Node, path: string, depth: nat, kind: Kind): seq<string>
  {
    if depth == 0 then
      if (n.Dir? && kind == DirKind) || (n.File? && kind == FileKind) then [path] else []
    else if n.Dir? && n.listable then BelowAll(n.children, path, depth - 1, kind)
    else []
  }

  /** `Below` for each child of the directory at `parent`, children in listing order. */
  function BelowAll(cs: seq<Node>, parent: string, depth: nat, kind: Kind): seq<string>
  {
    if cs == [] then []
    else Below(cs[0], ChildPath(parent, cs[0].name), depth, kind) + BelowAll(cs[1..], parent, depth, kind)
  }

  /** `Below` for each entry of a frontier, frontier in order. */
  function Level(frontier: seq<Entry>, depth: nat, kind: Kind): seq<string>
  {
    if frontier == [] then []
    else Below(frontier[0].node, frontier[0].path, depth, kind) + Level(frontier[1..], depth, kind)
  }

  /** Levels `lo` up to (not including) `hi`, shallower levels first. */
  function Levels(frontier: seq<Entry>, lo: nat, hi: nat, kind: Kind): seq<string>
    decreases hi - lo
  {
    if lo >= hi then [] else Level(frontier, lo, kind) + Levels(frontier, lo + 1, hi, kind)
  }

  /** Everything of `kind` a breadth-first walk from `root` must report, level
      by level; no entry lies deeper than the size of the tree. */
  function BreadthFirst(rootPath: string, root: Node, kind: Kind): seq<string>
  {
    Levels([Entry(rootPath, root)], 0, Size(root) + 1, kind)
  }

  /** Nothing lies as deep as the size of a subtree, so `BreadthFirst`'s
      cut-off at `Size(root)` leaves out no entry. */
  lemma {:induction false} NothingBelowSize(n: Node, path: string, depth: nat, kind: Kind)
    requires depth >= Size(n)
    ensures Below(n, path, depth, kind) == []
    decreases n
  {
    if n.Dir? && n.listable {
      NothingBelowSizeAll(n.children, path, depth - 1, kind);
    }
  }

  lemma {:induction false} NothingBelowSizeAll(cs: seq<Node>, parent: string, depth: nat, kind: Kind)
    requires depth >= SizeAll(cs)
    ensures BelowAll(cs, parent, depth, kind) == []
    decreases cs
  {
    if cs != [] {
      NothingBelowSize(cs[0], ChildPath(parent, cs[0].name), depth, kind);
      NothingBelowSizeAll(cs[1..], parent, depth, kind);
    }
  }

  /** Raising the cut-off of `BreadthFirst` adds nothing. */
  lemma {:induction false} BreadthFirstComplete(rootPath: string, root: Node, hi: nat, kind: Kind)
    requires hi >= Size(root) + 1
    ensures Levels([Entry(rootPath, root)], 0, hi, kind) == BreadthFirst(rootPath, root, kind)
    decreases hi
  {
    if hi > Size(root) + 1 {
      BreadthFirstComplete(rootPath, root, hi - 1, kind);
      LevelsSplitLast([Entry(rootPath, root)], 0, hi - 1, kind);
      var start := [Entry(rootPath, root)];
      assert start[1..] == [];
      NothingBelowSize(root, rootPath, hi - 1, kind);
      assert Level(start, hi - 1, kind) == [] + [];
    }
  }

  /** Levels `lo` to `hi` are levels `lo` to `hi - 1` followed by level `hi`. */
  lemma {:induction false} LevelsSplitLast(frontier: seq<Entry>, lo: nat, hi: nat, kind: Kind)
    requires lo <= hi
    ensures Levels(frontier, lo, hi + 1, kind) == Levels(frontier, lo, hi, kind) + Level(frontier, hi, kind)
    decreases hi - lo
  {
    if lo < hi {
      LevelsSplitLast(frontier, lo + 1, hi, kind);
    }
  }

  // ---------------------------------------------------------------------
  // The walk computes the breadth-first order
  // ---------------------------------------------------------------------

  lemma {:induction false} LevelAppend(a: seq<Entry>, b: seq<Entry>, depth: nat, kind: Kind)
    ensures Level(a + b, depth, kind) == Level(a, depth, kind) + Level(b, depth, kind)
    decreases |a|
  {
    if a == [] {
      assert a + b == b;
    } else {
      var ab := a + b;
      assert ab[0] == a[0];
      assert ab[1..] == a[1..] + b;
      LevelAppend(a[1..], b, depth, kind);
    }
  }

  /** At depth 0 a frontier of directories reports exactly its own paths as
      directories and no files. */
  lemma {:induction false} LevelZero(frontier: seq<Entry>)
    requires AllDirs(frontier)
    ensures Level(frontier, 0, DirKind) == PathsOf(frontier)
    ensures Level(frontier, 0, FileKind) == []
    decreases |frontier|
  {
    if frontier != [] {
      LevelZero(frontier[1..]);
    }
  }

  /** Below a listing, entries deeper than its own items are found under the
      directories it classifies, in order. */
  lemma {:induction false} ClassifyBelow(parent: string, cs: seq<Node>, depth: nat, kind: Kind)
    requires kind == DirKind || depth > 0
    ensures BelowAll(cs, parent, depth, kind) == Level(Classify(parent, cs).0, depth, kind)
    decreases |cs|
  {
    if cs != [] {
      var c := cs[0];
      var rest := Classify(parent, cs[1..]);
      ClassifyBelow(parent, cs[1..], depth, kind);
      if c.Dir? {
        var e := Entry(ChildPath(parent, c.name), c);
        assert ([e] + rest.0)[0] == e;
        assert ([e] + rest.0)[1..] == rest.0;
      }
    }
  }

  /** The files a listing classifies are its file items, in order. */
  lemma {:induction false} ClassifyBelowFiles(parent: string, cs: seq<Node>)
    ensures BelowAll(cs, parent, 0, FileKind) == Classify(parent, cs).1
    decreases |cs|
  {
    if cs != [] {
      ClassifyBelowFiles(parent, cs[1..]);
    }
  }

  /** The level below a frontier is the level of the next frontier. */
  lemma {:induction false} ScanLevelBelow(frontier: seq<Entry>, depth: nat, kind: Kind)
    requires kind == DirKind || depth > 0
    ensures Level(frontier, depth + 1, kind) == Level(ScanLevel(frontier).0, depth, kind)
    decreases |frontier|
  {
    if frontier != [] {
      var e := frontier[0];
      var head := ListEntry(e);
      var rest := ScanLevel(frontier[1..]);
      ScanLevelBelow(frontier[1..], depth, kind);
      LevelAppend(head.0, rest.0, depth, kind);
      if e.node.Dir? && e.node.listable {
        ClassifyBelow(e.path, e.node.children, depth, kind);
      }
    }
  }

  /** The files one level below a frontier are the files the round found. */
  lemma {:induction false} ScanLevelBelowFiles(frontier: seq<Entry>)
    ensures Level(frontier, 1, FileKind) == ScanLevel(frontier).1
    decreases |frontier|
  {
    if frontier != [] {
      var e := frontier[0];
      ScanLevelBelowFiles(frontier[1..]);
      if e.node.Dir? && e.node.listable {
        ClassifyBelowFiles(e.path, e.node.children);
      }
    }
  }

  /** Levels seen from a frontier are the levels one up seen from the next
      frontier (for files, from depth 1 on). */
  lemma {:induction false} LevelsShift(frontier: seq<Entry>, lo: nat, hi: nat, kind: Kind)
    requires kind == DirKind || lo >= 1
    ensures Levels(frontier, lo + 1, hi + 1, kind) == Levels(ScanLevel(frontier).0, lo, hi, kind)
    decreases hi - lo
  {
    if lo < hi {
      ScanLevelBelow(frontier, lo, kind);
      LevelsShift(frontier, lo + 1, hi, kind);
    }
  }

  lemma {:induction false} LevelsOfNothing(lo: nat, hi: nat, kind: Kind)
    ensures Levels([], lo, hi, kind) == []
    decreases hi - lo
  {
    if lo < hi {
      LevelsOfNothing(lo + 1, hi, kind);
    }
  }

  /** One round of the loop, unfolded. */
  lemma LoopStep(frontier: seq<Entry>, dirs: seq<string>, files: seq<string>)
    requires frontier != []
    ensures Loop(frontier, dirs, files)
         == Loop(ScanLevel(frontier).0, dirs + PathsOf(ScanLevel(frontier).0), files + ScanLevel(frontier).1)
  {
  }

  /** The `while` loop appends levels 1, 2, ... of its starting frontier to
      the directories, as long as the bound covers the frontier's subtrees. */
  lemma {:induction false} LoopDirs(frontier: seq<Entry>, dirs: seq<string>, files: seq<string>, bound: nat)
    requires AllDirs(frontier)
    requires FrontierSize(frontier) < bound
    ensures Loop(frontier, dirs, files).0 == dirs + Levels(frontier, 1, bound, DirKind)
    decreases FrontierSize(frontier)
  {
    if frontier == [] {
      LevelsOfNothing(1, bound, DirKind);
    } else {
      var next := ScanLevel(frontier).0;
      var found := ScanLevel(frontier).1;
      var tail := Levels(next, 1, bound - 1, DirKind);
      LoopStep(frontier, dirs, files);
      ScanLevelShrinks(frontier);
      LoopDirs(next, dirs + PathsOf(next), files + found, bound - 1);
      LevelsAfterRound(frontier, bound);
      assert dirs + PathsOf(next) + tail == dirs + (PathsOf(next) + tail);
    }
  }

  /** The directory levels from 1 on are the next frontier's paths followed by
      the next frontier's own levels from 1 on. */
  lemma LevelsAfterRound(frontier: seq<Entry>, bound: nat)
    requires frontier != []
    requires FrontierSize(frontier) < bound
    ensures Levels(frontier, 1, bound, DirKind)
         == PathsOf(ScanLevel(frontier).0) + Levels(ScanLevel(frontier).0, 1, bound - 1, DirKind)
  {
    var next := ScanLevel(frontier).0;
    ScanLevelShrinks(frontier);
    LevelsShift(frontier, 0, bound - 1, DirKind);
    LevelZero(next);
  }

  /** ... and levels 1, 2, ... of the files. */
  lemma {:induction false} LoopFiles(frontier: seq<Entry>, dirs: seq<string>, files: seq<string>, bound: nat)
    requires AllDirs(frontier)
    requires FrontierSize(frontier) < bound
    ensures Loop(frontier, dirs, files).1 == files + Levels(frontier, 1, bound, FileKind)
    decreases FrontierSize(frontier)
  {
    if frontier == [] {
      LevelsOfNothing(1, bound, FileKind);
    } else {
      var next := ScanLevel(frontier).0;
      var found := ScanLevel(frontier).1;
      var tail := Levels(next, 1, bound - 1, FileKind);
      LoopStep(frontier, dirs, files);
      ScanLevelShrinks(frontier);
      LoopFiles(next, dirs + PathsOf(next), files + found, bound - 1);
      FileLevelsAfterRound(frontier, bound);
      assert files + found + tail == files + (found + tail);
    }
  }

  /** The file levels from 1 on are the files the round found followed by the
      next frontier's own file levels from 1 on. */
  lemma FileLevelsAfterRound(frontier: seq<Entry>, bound: nat)
    requires frontier != []
    requires FrontierSize(frontier) < bound
    ensures Levels(frontier, 1, bound, FileKind)
         == ScanLevel(frontier).1 + Levels(ScanLevel(frontier).0, 1, bound - 1, FileKind)
  {
    ScanLevelShrinks(frontier);
    LevelsShift(frontier, 1, bound - 1, FileKind);
    ScanLevelBelowFiles(frontier);
  }

  /** The walk reports, in order, exactly the directories and the files of the
      breadth-first description: the root, then everything one level down,
      then two levels down, and so on. */
  lemma WalkIsBreadthFirst(rootPath: string, root: Node)
    requires Walk(rootPath, root).Found?
    ensures Walk(rootPath, root).dirs == BreadthFirst(rootPath, root, DirKind)
    ensures Walk(rootPath, root).files == BreadthFirst(rootPath, root, FileKind)
  {
    var start := [Entry(rootPath, root)];
    var first := Classify(rootPath, root.children);
    var bound := Size(root) + 1;
    assert start[1..] == [];
    assert FrontierSize(start) == Size(root);
    assert ListEntry(start[0]) == first;
    assert ScanLevel(start).0 == first.0 by {
      assert first.0 + [] == first.0;
    }
    assert ScanLevel(start).1 == first.1 by {
      assert first.1 + [] == first.1;
    }
    assert Loop(start, [rootPath], []) == Loop(first.0, [rootPath] + PathsOf(first.0), [] + first.1);
    assert [] + first.1 == first.1;
    assert Walk(rootPath, root).dirs == Loop(start, [rootPath], []).0;
    assert Walk(rootPath, root).files == Loop(start, [rootPath], []).1;
    LoopDirs(start, [rootPath], [], bound);
    LoopFiles(start, [rootPath], [], bound);
    assert Level(start, 0, DirKind) == [rootPath];
    assert Level(start, 0, FileKind) == [];
    assert Levels(start, 0, bound, DirKind) == [rootPath] + Levels(start, 1, bound, DirKind);
    assert Levels(start, 0, bound, FileKind) == [] + Levels(start, 1, bound, FileKind);
  }

  // ---------------------------------------------------------------------
  // The walk stops at the first level without directories
  // ---------------------------------------------------------------------

  lemma {:induction false} NoDirsNoDeeper(n: Node, path: string, depth: nat, kind: Kind)
    requires Below(n, path, depth, DirKind) == []
    ensures Below(n, path, depth + 1, kind) == []
    decreases n
  {
    if depth > 0 && n.Dir? && n.listable {
      NoDirsNoDeeperAll(n.children, path, depth - 1, kind);
    }
  }

  lemma {:induction false} NoDirsNoDeeperAll(cs: seq<Node>, parent: string, depth: nat, kind: Kind)
    requires BelowAll(cs, parent, depth, DirKind) == []
    ensures BelowAll(cs, parent, depth + 1, kind) == []
    decreases cs
  {
    if cs != [] {
      NoDirsNoDeeper(cs[0], ChildPath(parent, cs[0].name), depth, kind);
      NoDirsNoDeeperAll(cs[1..], parent, depth, kind);
    }
  }

  /** A level holding no directories is followed only by empty levels: nothing
      lies below it. */
  lemma {:induction false} EmptyLevelEndsWalk(frontier: seq<Entry>, depth: nat, kind: Kind)
    requires Level(frontier, depth, DirKind) == []
    ensures Level(frontier, depth + 1, kind) == []
    decreases |frontier|
  {
    if frontier != [] {
      var e := frontier[0];
      NoDirsNoDeeper(e.node, e.path, depth, kind);
      EmptyLevelEndsWalk(frontier[1..], depth, kind);
    }
  }

  /** The loop goes round again exactly when the next level holds directories. */
  lemma LoopContinuesIffDirsBelow(frontier: seq<Entry>)
    ensures ScanLevel(frontier).0 != [] <==> Level(frontier, 1, DirKind) != []
  {
    NextLevelIsNextFrontier(frontier);
  }

  lemma NextLevelIsNextFrontier(frontier: seq<Entry>)
    ensures Level(frontier, 1, DirKind) == PathsOf(ScanLevel(frontier).0)
  {
    ScanLevelBelow(frontier, 0, DirKind);
    LevelZero(ScanLevel(frontier).0);
  }

  // ---------------------------------------------------------------------
  // No path is reported both as a directory and as a file
  // ---------------------------------------------------------------------

  /** `x` is the path `q` itself or a path inside the directory `q`. */
  ghost predicate Under(x: string, q: string)
  {
    x == q || q + [Sep] <= x
  }

  lemma {:induction false} BelowAllFrom(cs: seq<Node>, parent: string, depth: nat, kind: Kind, x: string)
    requires x in BelowAll(cs, parent, depth, kind)
    ensures exists i :: 0 <= i < |cs| && x in Below(cs[i], ChildPath(parent, cs[i].name), depth, kind)
    decreases |cs|
  {
    if x !in Below(cs[0], ChildPath(parent, cs[0].name), depth, kind) {
      BelowAllFrom(cs[1..], parent, depth, kind, x);
      var i :| 0 <= i < |cs[1..]| && x in Below(cs[1..][i], ChildPath(parent, cs[1..][i].name), depth, kind);
      assert cs[1..][i] == cs[i + 1];
    }
  }

  /** Every path reported below an entry lies inside that entry's path. */
  lemma {:induction false} BelowUnder(n: Node, path: string, depth: nat, kind: Kind, x: string)
    requires x in Below(n, path, depth, kind)
    ensures Under(x, path)
    decreases n
  {
    if depth > 0 {
      var cs := n.children;
      BelowAllFrom(cs, path, depth - 1, kind, x);
      var i :| 0 <= i < |cs| && x in Below(cs[i], ChildPath(path, cs[i].name), depth - 1, kind);
      var q := ChildPath(path, cs[i].name);
      BelowUnder(cs[i], q, depth - 1, kind, x);
      assert q[..|path| + 1] == path + [Sep];
      assert x[..|path| + 1] == q[..|path| + 1];
    }
  }

  /** Paths inside two differently named siblings are different. */
  lemma PathsApart(parent: string, a: string, b: string, x: string, y: string)
    requires Sep !in a && Sep !in b && a != b
    requires Under(x, ChildPath(parent, a)) && Under(y, ChildPath(parent, b))
    ensures x != y
  {
    var k := |parent| + 1;
    assert |x| >= k + |a| && x[k..k + |a|] == a;
    assert |y| >= k + |b| && y[k..k + |b|] == b;
    assert |x| == k + |a| || x[k + |a|] == Sep;
    assert |y| == k + |b| || y[k + |b|] == Sep;
    if |a| < |b| {
      assert b[|a|] != Sep;
      assert y[k + |a|] == b[|a|];
    } else if |b| < |a| {
      assert a[|b|] != Sep;
      assert x[k + |b|] == a[|b|];
    }
  }

  /** A path reported below a listable directory lies inside one of its children. */
  lemma InsideChild(n: Node, path: string, depth: nat, kind: Kind, x: string) returns (i: nat)
    requires depth > 0
    requires x in Below(n, path, depth, kind)
    ensures n.Dir? && i < |n.children|
    ensures x in Below(n.children[i], ChildPath(path, n.children[i].name), depth - 1, kind)
    ensures Under(x, ChildPath(path, n.children[i].name))
  {
    var cs := n.children;
    BelowAllFrom(cs, path, depth - 1, kind, x);
    i :| 0 <= i < |cs| && x in Below(cs[i], ChildPath(path, cs[i].name), depth - 1, kind);
    BelowUnder(cs[i], ChildPath(path, cs[i].name), depth - 1, kind, x);
  }

  /** On a well-formed tree, a path reported as a directory at any depth is not
      reported as a file at any depth. */
  lemma {:induction false} KindsDisjoint(n: Node, path: string, d1: nat, d2: nat, x: string)
    requires WellFormed(n)
    requires x in Below(n, path, d1, DirKind)
    ensures x !in Below(n, path, d2, FileKind)
    decreases n
  {
    if d2 > 0 && n.Dir? && n.listable {
      var cs := n.children;
      forall y | y in Below(n, path, d2, FileKind)
        ensures y != x
      {
        var j := InsideChild(n, path, d2, FileKind, y);
        if d1 > 0 {
          var i := InsideChild(n, path, d1, DirKind, x);
          if i == j {
            KindsDisjoint(cs[i], ChildPath(path, cs[i].name), d1 - 1, d2 - 1, x);
          } else {
            PathsApart(path, cs[i].name, cs[j].name, x, y);
          }
        }
      }
    }
  }

  lemma {:induction false} LevelsFrom(rootPath: string, root: Node, lo: nat, hi: nat, kind: Kind, x: string)
    requires x in Levels([Entry(rootPath, root)], lo, hi, kind)
    ensures exists d :: x in Below(root, rootPath, d, kind)
    decreases hi - lo
  {
    var start := [Entry(rootPath, root)];
    assert start[1..] == [];
    assert Level(start, lo, kind) == Below(root, rootPath, lo, kind) + [];
    if x !in Below(root, rootPath, lo, kind) {
      LevelsFrom(rootPath, root, lo + 1, hi, kind, x);
    }
  }

  /** On a well-formed tree no path is both a directory and a file of the
      breadth-first description. */
  lemma BreadthFirstKindsDisjoint(rootPath: string, root: Node)
    requires WellFormed(root)
    ensures forall x :: x in BreadthFirst(rootPath, root, DirKind) ==> x !in BreadthFirst(rootPath, root, FileKind)
  {
    forall x | x in BreadthFirst(rootPath, root, DirKind)
      ensures x !in BreadthFirst(rootPath, root, FileKind)
    {
      LevelsFrom(rootPath, root, 0, Size(root) + 1, DirKind, x);
      var d1 :| x in Below(root, rootPath, d1, DirKind);
      if x in BreadthFirst(rootPath, root, FileKind) {
        LevelsFrom(rootPath, root, 0, Size(root) + 1, FileKind, x);
        var d2 :| x in Below(root, rootPath, d2, FileKind);
        KindsDisjoint(root, rootPath, d1, d2, x);
      }
    }
  }

  /** On a well-formed tree the walk never reports one path both as a
      directory and as a file. */
  lemma WalkKindsDisjoint(rootPath: string, root: Node)
    requires WellFormed(root)
    requires Walk(rootPath, root).Found?
    ensures forall x :: x in Walk(rootPath, root).dirs ==> x !in Walk(rootPath, root).files
  {
    WalkIsBreadthFirst(rootPath, root);
    BreadthFirstKindsDisjoint(rootPath, root);
  }
}
