/**
 * The full-text search of `src-tauri/src/commands.rs` (`search_content` and
 * `search_recursive`): a walk over the in-memory file system that collects,
 * for every Markdown file, the lines containing the lower-cased query.
 * Unlike the tree walk, every read error ends the search with an error.
 */
module ContentSearch {
  import opened Wrappers
  import opened Text
  import opened FileTree
  import KnowledgeBaseParse

  datatype SearchMatch = SearchMatch(lineNumber: nat, content: string)

  datatype SearchResult = SearchResult(path: string, name: string, matches: seq<SearchMatch>)

  /** The operating system's message for a failed read; its text is not modelled. */
  const IoError: string := "io error"

  /** `path.extension() == Some("md")`: a `.md` suffix after a non-empty stem. */
  predicate MarkdownFile(name: string) {
    |name| > 3 && EndsWith(name, ".md")
  }

  /** The line matches: its lower case contains the (already lower-cased) query. */
  predicate LineMatches(line: string, query: string) {
    Contains(ToLower(line), query)
  }

  /** The matches among the first `n` lines: 0-based index and trimmed text. */
  function MatchLines(lines: seq<string>, query: string, n: nat): seq<SearchMatch>
    requires n <= |lines|
  {
    if n == 0 then []
    else
      MatchLines(lines, query, n - 1) +
      (if LineMatches(lines[n - 1], query) then [SearchMatch(n - 1, Trim(lines[n - 1]))] else [])
  }

  /** What one entry at `path` adds to the results, or the error that stops the search. */
  function Search(e: Entry, path: string, query: string): Result<seq<SearchResult>>
    decreases e, 1
  {
    match e
    case Broken => Err(IoError)
    case Dir(_, readable, entries) =>
      if !readable then Err(IoError) else SearchAll(e, path, query, |entries|)
    case File(name, content) =>
      if !MarkdownFile(name) then Ok([])
      else if content.None? then Err(IoError)
      else
        var lines := KnowledgeBaseParse.Lines(content.value);
        var matches := MatchLines(lines, query, |lines|);
        Ok(if matches == [] then [] else [SearchResult(path, name, matches)])
  }

  /**
   * The results of the first `n` entries of the listing of `dir`, in
   * listing order; a broken entry is an error.
   */
  function SearchAll(dir: Entry, path: string, query: string, n: nat): Result<seq<SearchResult>>
    requires dir.Dir? && dir.readable && n <= |dir.entries|
    decreases dir, 0, n
  {
    if n == 0 then Ok([])
    else
      var before := SearchAll(dir, path, query, n - 1);
      var e := dir.entries[n - 1];
      if before.Err? then before
      else if e.Broken? then Err(IoError)
      else if Ignored(e.name) then before
      else
        var here := Search(e, ChildPath(path, e.name), query);
        if here.Err? then here else Ok(before.value + here.value)
  }

  /** `search_content`: nothing for an empty query, otherwise the walk with the query lower-cased. */
  function SearchContentOf(root: Entry, rootPath: string, query: string): Result<seq<SearchResult>> {
    if query == [] then Ok([]) else Search(root, rootPath, ToLower(query))
  }

  // ---------------------------------------------------------------------
  // The walk as the source performs it
  // ---------------------------------------------------------------------

  /** `search_content`. A root path that does not exist behaves as an unreadable file of that name. */
  method SearchContent(root: Entry, rootPath: string, query: string) returns (r: Result<seq<SearchResult>>)
    ensures r == SearchContentOf(root, rootPath, query)
    ensures query == [] ==> r == Ok([])
  {
    if query == [] {
      return Ok([]);
    }
    var queryLower := ToLower(query);
    r := SearchRecursive(root, rootPath, queryLower, []);
    var found := Search(root, rootPath, queryLower);
    if found.Ok? {
      assert [] + found.value == found.value;
    }
  }

  /**
   * `search_recursive`: pushes this entry's results after `results`. On an
   * error the partial results are dropped, as `search_content` drops them.
   */
  method SearchRecursive(e: Entry, path: string, query: string, results: seq<SearchResult>)
    returns (r: Result<seq<SearchResult>>)
    ensures Search(e, path, query).Ok? ==> r == Ok(results + Search(e, path, query).value)
    ensures Search(e, path, query).Err? ==> r == Search(e, path, query)
    decreases e, 1
  {
    match e
    case Broken =>
      return Err(IoError);
    case Dir(_, readable, _) =>
      if !readable {
        return Err(IoError);
      }
      r := SearchEntries(e, path, query, results);
    case File(name, content) =>
      if !MarkdownFile(name) {
        assert results + [] == results;
        return Ok(results);
      }
      if content.None? {
        return Err(IoError);
      }
      var matches := ScanLines(KnowledgeBaseParse.Lines(content.value), query);
      if matches != [] {
        return Ok(results + [SearchResult(path, name, matches)]);
      }
      assert results + [] == results;
      return Ok(results);
  }

  /** The `read_dir` loop of `search_recursive` over a readable directory. */
  method SearchEntries(dir: Entry, path: string, query: string, results: seq<SearchResult>)
    returns (r: Result<seq<SearchResult>>)
    requires dir.Dir? && dir.readable
    ensures SearchAll(dir, path, query, |dir.entries|).Ok? ==>
      r == Ok(results + SearchAll(dir, path, query, |dir.entries|).value)
    ensures SearchAll(dir, path, query, |dir.entries|).Err? ==> r == SearchAll(dir, path, query, |dir.entries|)
    decreases dir, 0
  {
    var entries := dir.entries;
    var acc := results;
    var i := 0;
    while i < |entries|
      invariant 0 <= i <= |entries|
      invariant SearchAll(dir, path, query, i).Ok?
      invariant acc == results + SearchAll(dir, path, query, i).value
    {
      var entry := entries[i];
      if entry.Broken? {
        SearchAllKeepsError(dir, path, query, i + 1, |entries|);
        return Err(IoError);
      }
      if !Ignored(entry.name) {
        var sub := SearchRecursive(entry, ChildPath(path, entry.name), query, acc);
        if sub.Err? {
          SearchAllKeepsError(dir, path, query, i + 1, |entries|);
          return sub;
        }
        acc := sub.value;
      }
      i := i + 1;
    }
    return Ok(acc);
  }

  /** The `lines().enumerate()` loop of one file. */
  method ScanLines(lines: seq<string>, query: string) returns (matches: seq<SearchMatch>)
    ensures matches == MatchLines(lines, query, |lines|)
  {
    matches := [];
    var idx := 0;
    while idx < |lines|
      invariant 0 <= idx <= |lines|
      invariant matches == MatchLines(lines, query, idx)
    {
      if LineMatches(lines[idx], query) {
        matches := matches + [SearchMatch(idx, Trim(lines[idx]))];
      }
      idx := idx + 1;
    }
  }

  // ---------------------------------------------------------------------
  // What the search promises
  // ---------------------------------------------------------------------

  /** A match is recorded exactly for each matching line, with its index and trimmed text, in line order. */
  lemma {:induction false} MatchLinesExact(lines: seq<string>, query: string, n: nat)
    requires n <= |lines|
    ensures forall m :: m in MatchLines(lines, query, n) <==>
      exists k | 0 <= k < n :: LineMatches(lines[k], query) && m == SearchMatch(k, Trim(lines[k]))
    ensures forall i, j | 0 <= i < j < |MatchLines(lines, query, n)| ::
      MatchLines(lines, query, n)[i].lineNumber < MatchLines(lines, query, n)[j].lineNumber
    ensures forall i | 0 <= i < |MatchLines(lines, query, n)| :: MatchLines(lines, query, n)[i].lineNumber < n
  {
    if n > 0 {
      MatchLinesExact(lines, query, n - 1);
    }
  }

  /**
   * `r` is what the walk from `e` at `path` reports for one file: a Markdown
   * file reached through readable directories and unignored names, named
   * `r.name` at `r.path`, whose matching lines are exactly `r.matches`, and
   * at least one line matches.
   */
  ghost predicate Hit(e: Entry, path: string, query: string, r: SearchResult)
    decreases e, 2
  {
    match e
    case Broken => false
    case File(name, content) =>
      var lines := KnowledgeBaseParse.Lines(if content.Some? then content.value else []);
      MarkdownFile(name) && content.Some? && r.matches != [] &&
      r == SearchResult(path, name, MatchLines(lines, query, |lines|))
    case Dir(_, readable, entries) => readable && HitIn(e, path, query, r, |entries|)
  }

  /** `r` is a hit below one of the first `n` entries of the listing of `dir`. */
  ghost predicate HitIn(dir: Entry, path: string, query: string, r: SearchResult, n: nat)
    requires dir.Dir? && n <= |dir.entries|
    decreases dir, 1
  {
    exists k: nat | k < n :: ChildHit(dir, path, query, r, k)
  }

  /** `r` is a hit below the entry `k` of the listing of `dir`, which is neither broken nor ignored. */
  ghost predicate ChildHit(dir: Entry, path: string, query: string, r: SearchResult, k: nat)
    requires dir.Dir? && k < |dir.entries|
    decreases dir, 0
  {
    var c := dir.entries[k];
    !c.Broken? && !Ignored(c.name) && Hit(c, ChildPath(path, c.name), query, r)
  }

  /**
   * A successful walk reports exactly the hits: every reachable Markdown file
   * with a matching line appears, with all its matches, and nothing else does.
   */
  lemma {:induction false} SearchExact(e: Entry, path: string, query: string)
    ensures Search(e, path, query).Ok? ==>
      forall r :: r in Search(e, path, query).value <==> Hit(e, path, query, r)
    decreases e, 1
  {
    if e.Dir? && e.readable {
      SearchAllExact(e, path, query, |e.entries|);
    }
  }

  /** The same for the first `n` entries of a listing. */
  lemma {:induction false} SearchAllExact(dir: Entry, path: string, query: string, n: nat)
    requires dir.Dir? && dir.readable && n <= |dir.entries|
    ensures SearchAll(dir, path, query, n).Ok? ==>
      forall r :: r in SearchAll(dir, path, query, n).value <==> HitIn(dir, path, query, r, n)
    decreases dir, 0, n
  {
    if n > 0 {
      SearchAllExact(dir, path, query, n - 1);
      var e := dir.entries[n - 1];
      if !e.Broken? && !Ignored(e.name) {
        SearchExact(e, ChildPath(path, e.name), query);
      }
      forall r
        ensures HitIn(dir, path, query, r, n) <==>
          HitIn(dir, path, query, r, n - 1) || ChildHit(dir, path, query, r, n - 1)
      {
        HitInLast(dir, path, query, r, n);
      }
    }
  }

  /** A hit among the first `n` entries is a hit among the first `n - 1` or below the last one. */
  /** A hit among the first `n` entries has an entry it lies below. */
  lemma HitInWitness(dir: Entry, path: string, q: string, r: SearchResult, n: nat)
    requires dir.Dir? && n <= |dir.entries| && HitIn(dir, path, q, r, n)
    ensures exists k: nat | k < n :: ChildHit(dir, path, q, r, k)
  {}
  lemma HitInLast(dir: Entry, path: string, query: string, r: SearchResult, n: nat)
    requires dir.Dir? && 0 < n <= |dir.entries|
    ensures HitIn(dir, path, query, r, n) <==>
      HitIn(dir, path, query, r, n - 1) || ChildHit(dir, path, query, r, n - 1)
  {
    if HitIn(dir, path, query, r, n) {
      HitInWitness(dir, path, query, r, n);
      var k: nat :| k < n && ChildHit(dir, path, query, r, k);
      if k < n - 1 {
        assert HitIn(dir, path, query, r, n - 1);
      }
    }
  }

  /** `search_content` with a non-empty query reports exactly the hits of the lower-cased query. */
  lemma SearchContentExact(root: Entry, rootPath: string, query: string)
    requires query != []
    ensures SearchContentOf(root, rootPath, query).Ok? ==>
      forall r :: r in SearchContentOf(root, rootPath, query).value <==> Hit(root, rootPath, ToLower(query), r)
  {
    SearchExact(root, rootPath, ToLower(query));
  }

  /** Every result names a Markdown file and holds at least one match. */
  predicate Found(rs: seq<SearchResult>) {
    forall i | 0 <= i < |rs| :: MarkdownFile(rs[i].name) && rs[i].matches != []
  }

  /** Every result names a Markdown file and holds at least one match. */
  lemma {:induction false} SearchFindsMarkdown(e: Entry, path: string, query: string)
    ensures Search(e, path, query).Ok? ==> Found(Search(e, path, query).value)
    decreases e, 1
  {
    if e.Dir? && e.readable {
      SearchAllFindsMarkdown(e, path, query, |e.entries|);
    }
  }

  /** The same for a listing, whose results never carry an ignored name. */
  lemma {:induction false} SearchAllFindsMarkdown(dir: Entry, path: string, query: string, n: nat)
    requires dir.Dir? && dir.readable && n <= |dir.entries|
    ensures SearchAll(dir, path, query, n).Ok? ==> Found(SearchAll(dir, path, query, n).value)
    ensures SearchAll(dir, path, query, n).Ok? ==>
      forall i | 0 <= i < |SearchAll(dir, path, query, n).value| :: !Ignored(SearchAll(dir, path, query, n).value[i].name)
    decreases dir, 0, n
  {
    if n > 0 {
      SearchAllFindsMarkdown(dir, path, query, n - 1);
      var e := dir.entries[n - 1];
      if !e.Broken? && !Ignored(e.name) {
        SearchFindsMarkdown(e, ChildPath(path, e.name), query);
        SearchNamesEntries(e, ChildPath(path, e.name), query);
        var a := SearchAll(dir, path, query, n - 1);
        var b := Search(e, ChildPath(path, e.name), query);
        if a.Ok? && b.Ok? {
          var ab := a.value + b.value;
          assert forall i | 0 <= i < |ab| :: ab[i] == if i < |a.value| then a.value[i] else b.value[i - |a.value|];
        }
      }
    }
  }

  /** A non-empty result of an entry names that entry, or an unignored entry below it. */
  lemma {:induction false} SearchNamesEntries(e: Entry, path: string, query: string)
    requires !e.Broken? && !Ignored(e.name)
    ensures Search(e, path, query).Ok? ==>
      forall i | 0 <= i < |Search(e, path, query).value| :: !Ignored(Search(e, path, query).value[i].name)
    decreases e, 1
  {
    if e.Dir? && e.readable {
      SearchAllFindsMarkdown(e, path, query, |e.entries|);
    }
  }

  /** A broken entry anywhere in the walked part of a listing fails the whole search. */
  lemma {:induction false} SearchAllFailsOnBroken(dir: Entry, path: string, query: string, n: nat, j: nat)
    requires dir.Dir? && dir.readable && j < n <= |dir.entries| && dir.entries[j].Broken?
    ensures SearchAll(dir, path, query, n).Err?
  {
    if j < n - 1 {
      SearchAllFailsOnBroken(dir, path, query, n - 1, j);
    }
  }

  /** Once the walk of a listing has failed, the later entries do not change the error. */
  lemma {:induction false} SearchAllKeepsError(dir: Entry, path: string, query: string, n: nat, m: nat)
    requires dir.Dir? && dir.readable && n <= m <= |dir.entries|
    requires SearchAll(dir, path, query, n).Err?
    ensures SearchAll(dir, path, query, m) == SearchAll(dir, path, query, n)
    decreases m
  {
    if n < m {
      SearchAllKeepsError(dir, path, query, n, m - 1);
    }
  }

  /** The search does not depend on the query's letter case. */
  lemma QueryCaseInsensitive(root: Entry, rootPath: string, query: string)
    ensures SearchContentOf(root, rootPath, ToLower(query)) == SearchContentOf(root, rootPath, query)
  {
    ToLowerIdempotent(query);
  }

  /** A Markdown file searched on its own gives one result with its matches, or none when no line matches. */
  lemma SingleFile(name: string, path: string, content: string, query: string)
    requires MarkdownFile(name) && query != []
    ensures var lines := KnowledgeBaseParse.Lines(content);
      var ms := MatchLines(lines, ToLower(query), |lines|);
      SearchContentOf(File(name, Some(content)), path, query) ==
        Ok(if ms == [] then [] else [SearchResult(path, name, ms)])
  {
  }
}
