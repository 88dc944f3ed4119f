/**
  The filesystem the search walks, frozen into a finite tree. Each entry is
  what `os.path.isdir` / `os.path.isfile` would say about it; a directory
  also records whether `os.listdir` succeeds on it.
 */
module FileTree {
  import opened Paths
  import opened Optional

  datatype Node =
    | Dir(name: string, listable: bool, children: seq<Node>)  // isdir; children in listing order
    | File(name: string)                                       // isfile
    | Other(name: string)                                      // neither, e.g. a dangling symlink

  /** Number of entries in the subtree rooted at `n`, `n` included. */
  function Size(n: Node): (s: nat)
    ensures s >= 1
  {
    match n
    case Dir(_, _, cs) => 1 + SizeAll(cs)
    case _ => 1
  }

  function SizeAll(ns: seq<Node>): nat
  {
    if ns == [] then 0 else Size(ns[0]) + SizeAll(ns[1..])
  }

  /** `os.listdir` on an entry: the children of a listable directory; `None`
      where the call would raise (unreadable directory, not a directory). */
  function Listing(n: Node): (r: Option<seq<Node>>)
    ensures r.Some? <==> n.Dir? && n.listable
    ensures r.Some? ==> r.value == n.children && SizeAll(r.value) < Size(n)
  {
    if n.Dir? && n.listable then Some(n.children) else None
  }

  /** A tree a real filesystem can hold: names carry no separator and no two
      entries of one directory share a name. */
  ghost predicate WellFormed(n: Node)
  {
    match n
    case Dir(_, _, cs) =>
      && (forall i, j :: 0 <= i < j < |cs| ==> cs[i].name != cs[j].name)
      && (forall i :: 0 <= i < |cs| ==> Sep !in cs[i].name && WellFormed(cs[i]))
    case _ => true
  }
}
