/**
 * The file-tree command of `src-tauri/src/commands/fs.rs`: the same walk as
 * `commands.rs` but with an unsigned depth that stops at 0, and with
 * separate errors for a missing root and a root that is not a directory.
 */
module FsCommands {
  import opened Wrappers
  import opened FileTree
  import DirCommands

  /** The depth `read_directory_tree` starts from. */
  const RootMaxDepth: nat := 10

  /** `read_dir_recursive(dir, max_depth)`: nothing at depth 0 or for an unreadable directory. */
  function FsTree(listing: Option<seq<Entry>>, path: string, maxDepth: nat): seq<FileNode>
    decreases maxDepth, 2, 0
  {
    if maxDepth == 0 || listing.None? then []
    else SortNodes(FsNodes(listing.value, path, maxDepth, |listing.value|))
  }

  /** The nodes the loop pushes for the first `n` entries, in listing order. */
  function FsNodes(es: seq<Entry>, path: string, maxDepth: nat, n: nat): seq<FileNode>
    requires maxDepth > 0 && n <= |es|
    decreases maxDepth, 1, n
  {
    if n == 0 then [] else FsNodes(es, path, maxDepth, n - 1) + FsNodeOf(es[n - 1], path, maxDepth)
  }

  /**
   * The node one entry contributes. A failing recursion would give a
   * directory empty children; the recursion cannot fail, so the model has
   * no such case.
   */
  function FsNodeOf(e: Entry, path: string, maxDepth: nat): seq<FileNode>
    requires maxDepth > 0
    decreases maxDepth, 0, 0
  {
    match e
    case Broken => []
    case File(name, _) =>
      if Ignored(name) then [] else [FileNode(name, ChildPath(path, name), false, None)]
    case Dir(name, _, _) =>
      if Ignored(name) then []
      else [FileNode(name, ChildPath(path, name), true, Some(FsTree(Listing(e), ChildPath(path, name), maxDepth - 1)))]
  }

  /** `read_dir_recursive`: the loop over the listing, then the sort. */
  method ReadDirRecursive(listing: Option<seq<Entry>>, dir: string, maxDepth: nat) returns (nodes: seq<FileNode>)
    ensures nodes == FsTree(listing, dir, maxDepth)
    decreases maxDepth, 1
  {
    if maxDepth == 0 {
      return [];
    }
    if listing.None? {
      return [];
    }
    var entries := listing.value;
    nodes := [];
    var i := 0;
    while i < |entries|
      invariant 0 <= i <= |entries|
      invariant nodes == FsNodes(entries, dir, maxDepth, i)
    {
      var pushed := VisitEntry(entries[i], dir, maxDepth);
      nodes := nodes + pushed;
      i := i + 1;
    }
    nodes := SortNodes(nodes);
  }

  /** One pass of the loop: skip a broken or ignored entry, recurse into a directory. */
  method VisitEntry(entry: Entry, dir: string, maxDepth: nat) returns (pushed: seq<FileNode>)
    requires maxDepth > 0
    ensures pushed == FsNodeOf(entry, dir, maxDepth)
    decreases maxDepth, 0
  {
    if entry.Broken? {
      return [];
    }
    var fileName := entry.name;
    if Ignored(fileName) {
      return [];
    }
    var path := ChildPath(dir, fileName);
    var isDir := entry.Dir?;
    var children: Option<seq<FileNode>> := None;
    if isDir {
      var childNodes := ReadDirRecursive(Listing(entry), path, maxDepth - 1);
      children := Some(childNodes);
    }
    pushed := [FileNode(fileName, path, isDir, children)];
  }

  /** `read_directory_tree`: errors for a missing root and for a root that is not a directory. */
  function ReadDirectoryTree(root: Option<Entry>, path: string): (r: Result<seq<FileNode>>)
    ensures root.None? ==> r == Err("Path does not exist: " + path)
    ensures root.Some? && !root.value.Dir? ==> r == Err("Path is not a directory: " + path)
    ensures r.Ok? <==> root.Some? && root.value.Dir?
  {
    if root.None? then Err("Path does not exist: " + path)
    else if !root.value.Dir? then Err("Path is not a directory: " + path)
    else Ok(FsTree(Listing(root.value), path, RootMaxDepth))
  }

  /** The tree is sorted at every level, skips ignored names, and nests at most `maxDepth` levels. */
  lemma {:induction false} FsTreeShaped(listing: Option<seq<Entry>>, path: string, maxDepth: nat)
    ensures Sorted(FsTree(listing, path, maxDepth))
    ensures Shaped(FsTree(listing, path, maxDepth), maxDepth)
    decreases maxDepth, 2, 0
  {
    if maxDepth > 0 && listing.Some? {
      var built := FsNodes(listing.value, path, maxDepth, |listing.value|);
      FsNodesShaped(listing.value, path, maxDepth, |listing.value|);
      SortNodesSorted(built);
      SortNodesMembers(built);
      var r := FsTree(listing, path, maxDepth);
      forall i | 0 <= i < |r|
        ensures exists j | 0 <= j < |built| :: built[j] == r[i]
      {
        assert r[i] in built;
      }
    }
  }

  lemma {:induction false} FsNodesShaped(es: seq<Entry>, path: string, maxDepth: nat, n: nat)
    requires maxDepth > 0 && n <= |es|
    ensures Shaped(FsNodes(es, path, maxDepth, n), maxDepth)
    decreases maxDepth, 1, n
  {
    if n > 0 {
      FsNodesShaped(es, path, maxDepth, n - 1);
      FsNodeOfShaped(es[n - 1], path, maxDepth);
      var a, b := FsNodes(es, path, maxDepth, n - 1), FsNodeOf(es[n - 1], path, maxDepth);
      assert forall i | 0 <= i < |a + b| :: (a + b)[i] == if i < |a| then a[i] else b[i - |a|];
    }
  }

  lemma {:induction false} FsNodeOfShaped(e: Entry, path: string, maxDepth: nat)
    requires maxDepth > 0
    ensures Shaped(FsNodeOf(e, path, maxDepth), maxDepth)
    decreases maxDepth, 0, 0
  {
    if e.Dir? && !Ignored(e.name) {
      FsTreeShaped(Listing(e), ChildPath(path, e.name), maxDepth - 1);
    }
  }

  /**
   * The two walks differ only in where they stop: `commands.rs` at depth
   * `d` lists what `fs.rs` lists at depth `d + 1`. So from the same
   * starting depth 10, the registered `commands.rs` walk shows one level
   * more than the `fs.rs` one.
   */
  lemma {:induction false} DepthRulesDiffer(listing: Option<seq<Entry>>, path: string, d: int)
    requires d >= -1
    ensures DirCommands.Tree(listing, path, d) == FsTree(listing, path, d + 1)
    decreases d + 1, 2, 0
  {
    if d >= 0 && listing.Some? {
      NodesAgree(listing.value, path, d, |listing.value|);
    }
  }

  lemma {:induction false} NodesAgree(es: seq<Entry>, path: string, d: int, n: nat)
    requires d >= 0 && n <= |es|
    ensures DirCommands.Nodes(es, path, d, n) == FsNodes(es, path, d + 1, n)
    decreases d + 1, 1, n
  {
    if n > 0 {
      NodesAgree(es, path, d, n - 1);
      var e := es[n - 1];
      if e.Dir? && !Ignored(e.name) {
        DepthRulesDiffer(Listing(e), ChildPath(path, e.name), d - 1);
      }
    }
  }

  /** The starting depths: `commands.rs` from 10 shows what `fs.rs` would from 11. */
  lemma RootWalksDiffer(listing: Option<seq<Entry>>, path: string)
    ensures DirCommands.Tree(listing, path, DirCommands.RootDepth) == FsTree(listing, path, RootMaxDepth + 1)
  {
    DepthRulesDiffer(listing, path, 10);
  }
}
