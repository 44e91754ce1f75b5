/**
 * The recent-projects list of `src-tauri/src/services/history_service.rs`:
 * a most-recently-used list of project paths, at most
 * `MAX_HISTORY_SIZE` long, kept in the file `recent_projects.json`. The
 * file is modelled as a field; reading it may fail, writing it is not
 * modelled to fail.
 */
module History {
  import opened Wrappers
  import opened Seqs

  const MaxHistorySize: nat := 10

  /** The list without any occurrence of `path` (`retain(|p| p != path)`). */
  function Without(projects: seq<string>, path: string): (r: seq<string>)
    ensures path !in r
    ensures forall p | p != path :: p in r <==> p in projects
  {
    Filter(projects, (p: string) => p != path)
  }

  /** `add_to_history`: `path` moves to the front and the list is cut to `MaxHistorySize`. */
  function Add(projects: seq<string>, path: string): seq<string> {
    var front := [path] + Without(projects, path);
    if |front| > MaxHistorySize then front[..MaxHistorySize] else front
  }

  /** The added path comes first. */
  lemma AddPutsPathFirst(projects: seq<string>, path: string)
    ensures |Add(projects, path)| >= 1 && Add(projects, path)[0] == path
  {
  }

  /** The added path occurs exactly once. */
  lemma AddMakesPathUnique(projects: seq<string>, path: string)
    ensures multiset(Add(projects, path))[path] == 1
  {
    var rest := Without(projects, path);
    var front := [path] + rest;
    var r := Add(projects, path);
    assert multiset(rest)[path] == 0;
    assert r == [path] + r[1..];
    assert r[1..] == rest[..|r| - 1];
    assert rest == rest[..|r| - 1] + rest[|r| - 1..];
  }

  /** The list never grows past `MaxHistorySize`. */
  lemma AddIsBounded(projects: seq<string>, path: string)
    ensures |Add(projects, path)| <= MaxHistorySize
  {
  }

  /**
   * Behind the added path come the other entries in their old order; only
   * the oldest beyond `MaxHistorySize` are dropped.
   */
  lemma AddKeepsOrder(projects: seq<string>, path: string)
    ensures var r := Add(projects, path);
      var rest := Without(projects, path);
      |r| == if |rest| < MaxHistorySize then |rest| + 1 else MaxHistorySize
    ensures Add(projects, path)[1..] == Without(projects, path)[..|Add(projects, path)| - 1]
  {
  }

  /** A list that already starts with `path`, has no other `path` and fits is left alone. */
  lemma AddToFront(projects: seq<string>, path: string)
    requires projects != [] && projects[0] == path && path !in projects[1..]
    requires |projects| <= MaxHistorySize
    ensures Add(projects, path) == projects
  {
    var tail := projects[1..];
    assert projects == [path] + tail;
    FilterAppend([path], tail, (p: string) => p != path);
    FilterAll(tail, (p: string) => p != path);
  }

  /** Adding the same path twice is the same as adding it once. */
  lemma AddIdempotent(projects: seq<string>, path: string)
    ensures Add(Add(projects, path), path) == Add(projects, path)
  {
    var r := Add(projects, path);
    AddMakesPathUnique(projects, path);
    assert r == [path] + r[1..];
    assert path !in r[1..] by {
      assert multiset(r) == multiset([path]) + multiset(r[1..]);
    }
    AddToFront(r, path);
  }

  /** Removing keeps the order of the rest: removal distributes over concatenation. */
  lemma WithoutAppend(a: seq<string>, b: seq<string>, path: string)
    ensures Without(a + b, path) == Without(a, path) + Without(b, path)
  {
    FilterAppend(a, b, (p: string) => p != path);
  }

  /** Removing an absent path leaves the list alone. */
  lemma WithoutAbsent(projects: seq<string>, path: string)
    requires path !in projects
    ensures Without(projects, path) == projects
  {
    FilterAll(projects, (p: string) => p != path);
  }

  /** The history file: `None` when it cannot be read or parsed. */
  class HistoryStore {
    var file: Option<seq<string>>

    /** `load_history(...).unwrap_or_default()`: a failed load counts as an empty list. */
    function Loaded(): seq<string>
      reads this
    {
      file.GetOr([])
    }

    /** A missing file is an empty history. */
    constructor ()
      ensures file == Some([])
    {
      file := Some([]);
    }

    method LoadHistory() returns (r: Result<seq<string>>)
      ensures file.Some? ==> r == Ok(file.value)
      ensures file.None? ==> r.Err?
    {
      match file {
        case Some(projects) => r := Ok(projects);
        case None => r := Err("Failed to parse history file");
      }
    }

    method AddToHistory(path: string)
      modifies this
      ensures file == Some(Add(old(Loaded()), path))
    {
      var projects := Loaded();
      projects := Filter(projects, (p: string) => p != path);
      projects := [path] + projects;
      if |projects| > MaxHistorySize {
        projects := projects[..MaxHistorySize];
      }
      file := Some(projects);
    }

    method RemoveFromHistory(path: string)
      modifies this
      ensures file == Some(Without(old(Loaded()), path))
    {
      var projects := Loaded();
      projects := Filter(projects, (p: string) => p != path);
      file := Some(projects);
    }

    method ClearHistory()
      modifies this
      ensures file == Some([])
    {
      file := Some([]);
    }
  }
}
