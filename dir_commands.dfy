/**
 * The file-tree command of `src-tauri/src/commands.rs` (`read_directory_tree`
 * and `read_dir_recursive`), over the in-memory file system of `FileTree`.
 */
module DirCommands {
  import opened Wrappers
  import opened Text
  import opened FileTree

  /** The depth `read_directory_tree` starts from. */
  const RootDepth: int := 10

  /**
   * `read_dir_recursive(path, depth)` on a directory whose `read_dir` gives
   * `listing`: nothing below depth 0 or for an unreadable directory,
   * otherwise the kept entries' nodes, sorted.
   */
  function Tree(listing: Option<seq<Entry>>, path: string, depth: int): (r: seq<FileNode>)
    decreases if depth < 0 then 0 else depth + 1, 2, 0
  {
    if depth < 0 || listing.None? then []
    else SortNodes(Nodes(listing.value, path, depth, |listing.value|))
  }

  /** The nodes the loop pushes for the first `n` entries, in listing order. */
  function Nodes(es: seq<Entry>, path: string, depth: int, n: nat): seq<FileNode>
    requires depth >= 0 && n <= |es|
    decreases depth + 1, 1, n
  {
    if n == 0 then [] else Nodes(es, path, depth, n - 1) + NodeOf(es[n - 1], path, depth)
  }

  /** The node one entry contributes: none for a broken or ignored entry. */
  function NodeOf(e: Entry, path: string, depth: int): seq<FileNode>
    requires depth >= 0
    decreases depth + 1, 0, 0
  {
    match e
    case Broken => []
    case File(name, _) =>
      if Ignored(name) then [] else [FileNode(name, ChildPath(path, name), false, None)]
    case Dir(name, _, _) =>
      if Ignored(name) then []
      else [FileNode(name, ChildPath(path, name), true, Some(Tree(Listing(e), ChildPath(path, name), depth - 1)))]
  }

  /** `read_dir_recursive`: the loop over the listing, then the sort. */
  method ReadDirRecursive(listing: Option<seq<Entry>>, path: string, depth: int) returns (nodes: seq<FileNode>)
    ensures nodes == Tree(listing, path, depth)
    decreases if depth < 0 then 0 else depth + 1, 1
  {
    if depth < 0 {
      return [];
    }
    if listing.None? {
      return [];
    }
    var entries := listing.value;
    nodes := [];
    var i := 0;
    while i < |entries|
      invariant 0 <= i <= |entries|
      invariant nodes == Nodes(entries, path, depth, i)
    {
      var pushed := VisitEntry(entries[i], path, depth);
      nodes := nodes + pushed;
      i := i + 1;
    }
    nodes := SortNodes(nodes);
  }

  /** One pass of the loop: skip a broken or ignored entry, recurse into a directory. */
  method VisitEntry(entry: Entry, path: string, depth: int) returns (pushed: seq<FileNode>)
    requires depth >= 0
    ensures pushed == NodeOf(entry, path, depth)
    decreases depth + 1, 0
  {
    if entry.Broken? {
      return [];
    }
    var name := entry.name;
    if Ignored(name) {
      return [];
    }
    var pathBuf := ChildPath(path, name);
    if entry.Dir? {
      var children := ReadDirRecursive(Listing(entry), pathBuf, depth - 1);
      pushed := [FileNode(name, pathBuf, true, Some(children))];
    } else {
      pushed := [FileNode(name, pathBuf, false, None)];
    }
  }

  /** `read_directory_tree`: an error for a missing root, otherwise the walk from depth 10. */
  function ReadDirectoryTree(root: Option<Entry>, path: string): (r: Result<seq<FileNode>>)
    ensures root.None? <==> r.Err?
  {
    if root.None? then Err("路径不存在") else Ok(Tree(Listing(root.value), path, RootDepth))
  }

  /** The tree from depth `depth` is sorted at every level, skips ignored names, and nests at most `depth + 1` levels. */
  lemma {:induction false} TreeShaped(listing: Option<seq<Entry>>, path: string, depth: int)
    ensures Sorted(Tree(listing, path, depth))
    ensures Shaped(Tree(listing, path, depth), depth + 1)
    decreases if depth < 0 then 0 else depth + 1, 2, 0
  {
    if depth >= 0 && listing.Some? {
      var built := Nodes(listing.value, path, depth, |listing.value|);
      NodesShaped(listing.value, path, depth, |listing.value|);
      SortNodesSorted(built);
      SortNodesMembers(built);
      var r := Tree(listing, path, depth);
      forall i | 0 <= i < |r|
        ensures exists j | 0 <= j < |built| :: built[j] == r[i]
      {
        assert r[i] in built;
      }
    }
  }

  lemma {:induction false} NodesShaped(es: seq<Entry>, path: string, depth: int, n: nat)
    requires depth >= 0 && n <= |es|
    ensures Shaped(Nodes(es, path, depth, n), depth + 1)
    decreases depth + 1, 1, n
  {
    if n > 0 {
      NodesShaped(es, path, depth, n - 1);
      NodeOfShaped(es[n - 1], path, depth);
      var a, b := Nodes(es, path, depth, n - 1), NodeOf(es[n - 1], path, depth);
      assert forall i | 0 <= i < |a + b| :: (a + b)[i] == if i < |a| then a[i] else b[i - |a|];
    }
  }

  lemma {:induction false} NodeOfShaped(e: Entry, path: string, depth: int)
    requires depth >= 0
    ensures Shaped(NodeOf(e, path, depth), depth + 1)
    decreases depth + 1, 0, 0
  {
    if e.Dir? && !Ignored(e.name) {
      TreeShaped(Listing(e), ChildPath(path, e.name), depth - 1);
    }
  }

  /** The nodes of the tree are exactly the nodes of the kept entries, one per entry. */
  lemma {:induction false} TreeLists(es: seq<Entry>, path: string, depth: int, node: FileNode)
    requires depth >= 0
    ensures node in Tree(Some(es), path, depth) <==>
      exists j | 0 <= j < |es| :: node in NodeOf(es[j], path, depth)
  {
    SortNodesMembers(Nodes(es, path, depth, |es|));
    NodesMembers(es, path, depth, |es|, node);
  }

  lemma {:induction false} NodesMembers(es: seq<Entry>, path: string, depth: int, n: nat, node: FileNode)
    requires depth >= 0 && n <= |es|
    ensures node in Nodes(es, path, depth, n) <==> exists j | 0 <= j < n :: node in NodeOf(es[j], path, depth)
  {
    if n > 0 {
      NodesMembers(es, path, depth, n - 1, node);
    }
  }

  /** What one entry contributes: nothing when broken or ignored, else one node of its kind. */
  lemma NodeOfKinds(e: Entry, path: string, depth: int)
    requires depth >= 0
    ensures NodeOf(e, path, depth) == [] <==> e.Broken? || Ignored(e.name)
    ensures !e.Broken? && !Ignored(e.name) ==>
      |NodeOf(e, path, depth)| == 1 &&
      NodeOf(e, path, depth)[0].name == e.name &&
      NodeOf(e, path, depth)[0].path == ChildPath(path, e.name) &&
      NodeOf(e, path, depth)[0].isDirectory == e.Dir?
    ensures e.Dir? && !Ignored(e.name) ==>
      NodeOf(e, path, depth)[0].children == Some(Tree(Listing(e), ChildPath(path, e.name), depth - 1))
  {
  }

  /** Below depth 0, and for an unreadable directory, the walk yields nothing. */
  lemma TreeCutOff(listing: Option<seq<Entry>>, path: string, depth: int)
    ensures depth < 0 ==> Tree(listing, path, depth) == []
    ensures listing.None? ==> Tree(listing, path, depth) == []
  {
  }
}
