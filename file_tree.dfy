/**
 * What the directory walkers of `src-tauri/src/commands.rs` and
 * `src-tauri/src/commands/fs.rs` share: an in-memory model of the file
 * system they read, the names they skip, the `FileNode` they build and the
 * order `sort_by` puts a directory's nodes in.
 */
module FileTree {
  import opened Wrappers
  import opened Text

  /**
   * One entry of a directory listing. A file's content is `None` when it
   * cannot be read; a directory that is not `readable` makes `read_dir`
   * fail. `Broken` is an entry the listing iterator reports as an error.
   */
  datatype Entry =
    | File(name: string, content: Option<string>)
    | Dir(name: string, readable: bool, entries: seq<Entry>)
    | Broken

  /** What `read_dir` yields at an entry: a readable directory's entries, or an error for anything else. */
  function Listing(e: Entry): (r: Option<seq<Entry>>)
    ensures r.Some? <==> e.Dir? && e.readable
    ensures r.Some? ==> r.value == e.entries
  {
    if e.Dir? && e.readable then Some(e.entries) else None
  }

  /** `entry.path()`: the directory's path joined with the entry's name. */
  function ChildPath(parent: string, name: string): string {
    parent + "/" + name
  }

  /** Hidden entries and the usual build and dependency directories are skipped. */
  predicate Ignored(name: string) {
    StartsWith(name, ".") || name == "node_modules" || name == "target" || name == "dist" || name == "build"
  }

  datatype FileNode = FileNode(name: string, path: string, isDirectory: bool, children: Option<seq<FileNode>>)

  // ---------------------------------------------------------------------
  // The order of `sort_by`
  // ---------------------------------------------------------------------

  /** `Ord` on strings: lexicographic by character. */
  predicate LexLess(a: string, b: string)
    decreases |a|
  {
    if a == [] then b != []
    else if b == [] then false
    else if a[0] != b[0] then a[0] < b[0]
    else LexLess(a[1..], b[1..])
  }

  lemma {:induction false} LexLessIrreflexive(a: string)
    ensures !LexLess(a, a)
    decreases |a|
  {
    if a != [] {
      LexLessIrreflexive(a[1..]);
    }
  }

  lemma {:induction false} LexLessTransitive(a: string, b: string, c: string)
    requires LexLess(a, b) && LexLess(b, c)
    ensures LexLess(a, c)
    decreases |a|
  {
    if a != [] && b != [] && c != [] && a[0] == b[0] == c[0] {
      LexLessTransitive(a[1..], b[1..], c[1..]);
    }
  }

  /** Two different strings are ordered one way or the other. */
  lemma {:induction false} LexLessTotal(a: string, b: string)
    requires a != b
    ensures LexLess(a, b) || LexLess(b, a)
    decreases |a|
  {
    if a != [] && b != [] && a[0] == b[0] {
      assert a == [a[0]] + a[1..] && b == [b[0]] + b[1..];
      LexLessTotal(a[1..], b[1..]);
    }
  }

  /** The comparator: directories before files, otherwise by lower-cased name. */
  predicate Before(a: FileNode, b: FileNode) {
    (a.isDirectory && !b.isDirectory) ||
    (a.isDirectory == b.isDirectory && LexLess(ToLower(a.name), ToLower(b.name)))
  }

  /** No node comes before a later one. */
  predicate Sorted(s: seq<FileNode>) {
    forall i, j | 0 <= i < j < |s| :: !Before(s[j], s[i])
  }

  /** `Before` is a strict weak order: what is not after `b` is before anything `b` is before. */
  lemma BeforeThrough(x: FileNode, a: FileNode, b: FileNode)
    requires Before(x, a) && !Before(b, a)
    ensures Before(x, b) && !Before(b, x)
  {
    var lx, la, lb := ToLower(x.name), ToLower(a.name), ToLower(b.name);
    if x.isDirectory == a.isDirectory == b.isDirectory {
      if la != lb {
        LexLessTotal(la, lb);
        LexLessTransitive(lx, la, lb);
      }
      if LexLess(lb, lx) {
        LexLessTransitive(lb, lx, lb);
        LexLessIrreflexive(lb);
      }
    }
  }

  /** `x` goes before the first node it is strictly before; ties keep their order. */
  function Insert(x: FileNode, s: seq<FileNode>): (r: seq<FileNode>)
    ensures multiset(r) == multiset(s) + multiset{x}
  {
    if s == [] then [x]
    else if Before(x, s[0]) then [x] + s
    else
      assert s == [s[0]] + s[1..];
      [s[0]] + Insert(x, s[1..])
  }

  /** The stable sort `sort_by` performs, as insertion of each node in turn. */
  function SortNodes(s: seq<FileNode>): (r: seq<FileNode>)
    ensures multiset(r) == multiset(s)
  {
    if s == [] then []
    else
      assert s == s[..|s| - 1] + [s[|s| - 1]];
      Insert(s[|s| - 1], SortNodes(s[..|s| - 1]))
  }

  lemma {:induction false} InsertSorted(x: FileNode, s: seq<FileNode>)
    requires Sorted(s)
    ensures Sorted(Insert(x, s))
  {
    if s != [] {
      if Before(x, s[0]) {
        BeforeAll(x, s);
      } else {
        InsertSorted(x, s[1..]);
        HeadStaysFirst(x, s);
      }
    }
  }

  /** A node before the first of a sorted listing is before all of it. */
  lemma BeforeAll(x: FileNode, s: seq<FileNode>)
    requires Sorted(s) && s != [] && Before(x, s[0])
    ensures forall j | 0 <= j < |s| :: !Before(s[j], x)
  {
    LexLessIrreflexive(ToLower(s[0].name));
    forall j | 0 <= j < |s|
      ensures !Before(s[j], x)
    {
      BeforeThrough(x, s[0], s[j]);
    }
  }

  /** When `x` is not before the head, the head stays first and nothing inserted after it comes before it. */
  lemma HeadStaysFirst(x: FileNode, s: seq<FileNode>)
    requires Sorted(s) && s != [] && !Before(x, s[0]) && Sorted(Insert(x, s[1..]))
    ensures Sorted(Insert(x, s))
  {
    var t := Insert(x, s[1..]);
    InsertMembers(x, s[1..]);
    forall j | 0 <= j < |t|
      ensures !Before(t[j], s[0])
    {
      assert t[j] in t;
      if t[j] != x {
        var k :| 0 <= k < |s| - 1 && s[1..][k] == t[j];
        assert s[k + 1] == t[j];
      }
    }
    assert Insert(x, s) == [s[0]] + t;
    ConsSorted(s[0], t);
  }

  lemma ConsSorted(h: FileNode, t: seq<FileNode>)
    requires Sorted(t) && forall j | 0 <= j < |t| :: !Before(t[j], h)
    ensures Sorted([h] + t)
  {
    var r := [h] + t;
    forall i, j | 0 <= i < j < |r|
      ensures !Before(r[j], r[i])
    {
      assert r[j] == t[j - 1];
      if i > 0 {
        assert r[i] == t[i - 1];
      }
    }
  }

  lemma {:induction false} InsertMembers(x: FileNode, s: seq<FileNode>)
    ensures forall y | y in Insert(x, s) :: y == x || y in s
  {
    if s != [] && !Before(x, s[0]) {
      InsertMembers(x, s[1..]);
    }
  }

  /** The result is sorted and holds exactly the input's nodes. */
  lemma {:induction false} SortNodesSorted(s: seq<FileNode>)
    ensures Sorted(SortNodes(s))
  {
    if s != [] {
      SortNodesSorted(s[..|s| - 1]);
      InsertSorted(s[|s| - 1], SortNodes(s[..|s| - 1]));
    }
  }

  /** Every node of the result is a node of the input, and conversely. */
  lemma SortNodesMembers(s: seq<FileNode>)
    ensures forall n :: n in SortNodes(s) <==> n in s
  {
    forall n
      ensures n in SortNodes(s) <==> n in s
    {
      assert n in SortNodes(s) <==> n in multiset(SortNodes(s));
      assert n in s <==> n in multiset(s);
    }
  }

  /** In a sorted listing, directories come first, and each group is in lower-cased name order. */
  lemma SortedGroups(s: seq<FileNode>)
    requires Sorted(s)
    ensures forall i, j | 0 <= i < j < |s| && s[j].isDirectory :: s[i].isDirectory
    ensures forall i, j | 0 <= i < j < |s| && s[i].isDirectory == s[j].isDirectory ::
      !LexLess(ToLower(s[j].name), ToLower(s[i].name))
  {
  }

  /** Sorting what is already sorted changes nothing. */
  lemma {:induction false} SortNodesKeepsSorted(s: seq<FileNode>)
    requires Sorted(s)
    ensures SortNodes(s) == s
  {
    if s != [] {
      var init := s[..|s| - 1];
      assert Sorted(init);
      SortNodesKeepsSorted(init);
      InsertLast(s[|s| - 1], init);
      assert init + [s[|s| - 1]] == s;
    }
  }

  /** A node no earlier node comes after is inserted at the end. */
  lemma {:induction false} InsertLast(x: FileNode, s: seq<FileNode>)
    requires forall i | 0 <= i < |s| :: !Before(x, s[i])
    ensures Insert(x, s) == s + [x]
  {
    if s != [] {
      InsertLast(x, s[1..]);
      assert [s[0]] + (s[1..] + [x]) == s + [x];
    }
  }

  /**
   * Every node at every level: is not ignored, is a directory exactly when
   * it has children, lists its children sorted, and lies at most `k`
   * levels deep.
   */
  predicate Shaped(ns: seq<FileNode>, k: int)
    decreases if k < 0 then 0 else k
  {
    forall i | 0 <= i < |ns| ::
      && k >= 1 && !Ignored(ns[i].name)
      && (ns[i].isDirectory <==> ns[i].children.Some?)
      && (ns[i].children.Some? ==> Sorted(ns[i].children.value) && Shaped(ns[i].children.value, k - 1))
  }
}
