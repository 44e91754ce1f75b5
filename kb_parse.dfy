/**
 * The Markdown scanner of the knowledge-base service: `parse_heading`,
 * `parse_markdown` and the metadata computed on import
 * (`src-tauri/src/services/knowledge_base_service.rs`).
 *
 * Rust's `str::lines`, `trim`, `trim_start` and `char::is_whitespace` are
 * modelled over ASCII; `String::len` (a UTF-8 byte count) is modelled as
 * the character count, which agrees on ASCII text.
 */
module KnowledgeBaseParse {
  import opened Text
  import opened Wrappers

  // ---------------------------------------------------------------------
  // parse_heading
  // ---------------------------------------------------------------------

  /** A heading as `parse_heading` returns it: its level and its trimmed text. */
  datatype Heading = Heading(level: nat, text: string)

  /** `s.chars().take_while(|c| *c == '#').count()`. */
  function HashCount(s: string): (n: nat)
    ensures n <= |s|
    ensures forall i | 0 <= i < n :: s[i] == '#'
    ensures n == |s| || s[n] != '#'
  {
    if s != [] && s[0] == '#' then 1 + HashCount(s[1..]) else 0
  }

  /**
   * `parse_heading`: after leading whitespace, one to six `'#'` and a
   * non-blank remainder, which is trimmed to give the text.
   */
  function ParseHeading(line: string): (r: Option<Heading>)
    ensures r.Some? ==> 1 <= r.value.level <= 6 && r.value.text != []
  {
    var trimmed := TrimStart(line);
    var level := HashCount(trimmed);
    if level == 0 || level > 6 then None
    else
      var text := Trim(trimmed[level..]);
      if text == [] then None else Some(Heading(level, text))
  }

  /** Exactly `n` hashes open `s`. */
  predicate HashRun(s: string, n: nat) {
    n <= |s| && (forall i | 0 <= i < n :: s[i] == '#') && (n == |s| || s[n] != '#')
  }

  /**
   * The heading rule stated without the scanner: `line` is a level-`n`
   * heading with text `text` exactly when, after its leading whitespace, it
   * opens with exactly `n` hashes (`1 <= n <= 6`) and the rest trims to
   * the non-empty `text`.
   */
  lemma ParseHeadingIff(line: string, n: nat, text: string)
    ensures ParseHeading(line) == Some(Heading(n, text)) <==>
      var t := TrimStart(line);
      1 <= n <= 6 && HashRun(t, n) && text != [] && text == Trim(t[n..])
  {
    var t := TrimStart(line);
    if HashRun(t, n) {
      HashRunIs(t, n);
    }
  }

  /** A run of exactly `n` hashes is what `HashCount` counts. */
  lemma {:induction false} HashRunIs(s: string, n: nat)
    requires HashRun(s, n)
    ensures HashCount(s) == n
  {
    if n > 0 {
      assert HashRun(s[1..], n - 1);
      HashRunIs(s[1..], n - 1);
    }
  }

  // ---------------------------------------------------------------------
  // str::lines and import metadata
  // ---------------------------------------------------------------------

  /** A `'\r'` right before a line's `'\n'` belongs to the line ending. */
  function StripReturn(l: string): (r: string)
    ensures r == l || (l == r + "\r")
  {
    if l != [] && l[|l| - 1] == '\r' then l[..|l| - 1] else l
  }

  function StripReturns(ls: seq<string>): (r: seq<string>)
    ensures |r| == |ls|
    ensures forall k | 0 <= k < |ls| :: r[k] == StripReturn(ls[k])
  {
    if ls == [] then [] else [StripReturn(ls[0])] + StripReturns(ls[1..])
  }

  /**
   * `str::lines`: split at `'\n'`, a `"\r\n"` counting as one line ending;
   * the final line ending is optional, so text ending in `'\n'` has no
   * empty last line, and the empty text has no lines.
   */
  function Lines(s: string): seq<string> {
    var pieces := Split(s, '\n');
    var last := pieces[|pieces| - 1];
    StripReturns(pieces[..|pieces| - 1]) + (if last == [] then [] else [last])
  }

  /**
   * Lines `[s, e)` of `ls`, each followed by `'\n'`: what `push_str(line);
   * push('\n')` accumulates over those lines.
   */
  function Block(ls: seq<string>, s: nat, e: nat): string
    requires s <= e <= |ls|
    decreases e
  {
    if e == s then [] else Block(ls, s, e - 1) + ls[e - 1] + "\n"
  }

  /** Lines free of line-ending characters, each followed by `'\n'`, read back as the same lines. */
  lemma LinesOfBlock(ls: seq<string>)
    requires forall k | 0 <= k < |ls| :: '\n' !in ls[k] && (ls[k] == [] || ls[k][|ls[k]| - 1] != '\r')
    ensures Lines(Block(ls, 0, |ls|)) == ls
  {
    SplitBlockOnto(ls, |ls|, []);
    assert Block(ls, 0, |ls|) + [] == Block(ls, 0, |ls|);
    assert ls[..|ls|] == ls;
    assert Split([], '\n') == [[]];
    var pieces := ls + [""];
    assert pieces[..|pieces| - 1] == ls;
  }

  /** Whatever follows the first `n` terminated lines is split on its own. */
  lemma {:induction false} SplitBlockOnto(ls: seq<string>, n: nat, rest: string)
    requires n <= |ls|
    requires forall k | 0 <= k < n :: '\n' !in ls[k]
    ensures Split(Block(ls, 0, n) + rest, '\n') == ls[..n] + Split(rest, '\n')
  {
    if n > 0 {
      var last := ls[n - 1];
      var more := last + "\n" + rest;
      SplitBlockOnto(ls, n - 1, more);
      assert Block(ls, 0, n) + rest == Block(ls, 0, n - 1) + more;
      SplitAfterPiece(last, '\n', rest);
      AppendSingleton(ls[..n - 1], last, Split(rest, '\n'));
      assert ls[..n - 1] + [last] == ls[..n];
    } else {
      assert Block(ls, 0, n) + rest == rest;
    }
  }

  lemma AppendSingleton<T>(init: seq<T>, last: T, tail: seq<T>)
    ensures init + ([last] + tail) == (init + [last]) + tail
  {
  }

  /** No line returned by `Lines` holds a line break. */
  lemma LinesAvoidBreaks(s: string)
    ensures forall k | 0 <= k < |Lines(s)| :: '\n' !in Lines(s)[k]
  {
    SplitPiecesAvoid(s, '\n');
    var pieces := Split(s, '\n');
    forall k | 0 <= k < |pieces| - 1 ensures '\n' !in StripReturn(pieces[k]) {
      assert '\n' !in pieces[k];
    }
  }

  /** The number of characters that are not whitespace: `word_count`. */
  function NonSpaceCount(s: string): (n: nat)
    ensures n <= |s|
  {
    if s == [] then 0 else (if IsSpace(s[0]) then 0 else 1) + NonSpaceCount(s[1..])
  }

  lemma {:induction false} NonSpaceCountAppend(a: string, b: string)
    ensures NonSpaceCount(a + b) == NonSpaceCount(a) + NonSpaceCount(b)
  {
    if a != [] {
      assert (a + b)[1..] == a[1..] + b;
      NonSpaceCountAppend(a[1..], b);
    } else {
      assert a + b == b;
    }
  }

  /** `word_count` counts every character exactly when none is whitespace. */
  lemma {:induction false} NonSpaceCountFull(s: string)
    ensures NonSpaceCount(s) == |s| <==> forall i | 0 <= i < |s| :: !IsSpace(s[i])
  {
    if s != [] {
      NonSpaceCountFull(s[1..]);
      assert forall i | 1 <= i < |s| :: s[i] == s[1..][i - 1];
    }
  }

  /**
   * `Path::file_stem` on a `'/'`-separated path: the last component
   * (trailing `'/'` and `"."` components ignored; none for `".."` or when
   * there is no component), then the text before its last `'.'` unless
   * that dot is the first character or absent.
   */
  function FileStem(path: string): (r: Option<string>)
    ensures r.Some? ==> r.value != [] && '/' !in r.value
  {
    SplitPiecesAvoid(path, '/');
    match LastComponent(Split(path, '/'))
    case None => None
    case Some(name) =>
      var dot := LastIndexOf(name, '.');
      if dot <= 0 then Some(name) else Some(name[..dot])
  }

  /** The last component that is neither empty nor `"."`, unless it is `".."`. */
  function LastComponent(parts: seq<string>): (r: Option<string>)
    requires forall k | 0 <= k < |parts| :: '/' !in parts[k]
    ensures r.Some? ==> r.value != [] && r.value != "." && r.value != ".." && '/' !in r.value
  {
    if parts == [] then None
    else
      var last := parts[|parts| - 1];
      if last == [] || last == "." then LastComponent(parts[..|parts| - 1])
      else if last == ".." then None
      else Some(last)
  }

  /** The stem of a name is the text before its last dot, when that dot is not its first character. */
  lemma StemOfName(base: string, ext: string)
    requires base != [] && base != "." && '/' !in base && '/' !in ext && '.' !in ext
    ensures FileStem(base + "." + ext) == Some(base)
  {
    var name := base + "." + ext;
    assert '/' !in name;
    SplitUnbroken(name, '/');
    LastIndexOfUnique(name, '.', |base|);
    assert name[..|base|] == base;
    assert name != "." && name != "..";
  }

  /** A name without a dot, or whose only dot comes first, is its own stem. */
  lemma StemOfUndotted(name: string)
    requires name != [] && name != "." && name != ".." && '/' !in name
    requires '.' !in name[1..]
    ensures FileStem(name) == Some(name)
  {
    SplitUnbroken(name, '/');
    var k := if name[0] == '.' then 0 else -1;
    forall i | k < i < |name| ensures name[i] != '.' {
      if i > 0 {
        assert name[i] == name[1..][i - 1];
      }
    }
    LastIndexOfUnique(name, '.', k);
  }

  /** Only the last component matters: the stem of `dir/name` is the stem of `name`. */
  lemma StemIgnoresDirectory(dir: string, name: string)
    requires '/' !in dir && '/' !in name && name != [] && name != "."
    ensures FileStem(dir + "/" + name) == FileStem(name)
  {
    SplitAfterPiece(dir, '/', name);
    SplitUnbroken(name, '/');
    assert Split(dir + "/" + name, '/') == [dir, name];
  }

  /** `title`: the first heading's text, else the file stem, else `"Untitled"`. */
  function Title(headings: seq<HeadingInfo>, path: string): (r: string)
    ensures headings != [] ==> r == headings[0].text
    ensures headings == [] && FileStem(path).Some? ==> r == FileStem(path).value
    ensures headings == [] && FileStem(path).None? ==> r == "Untitled"
  {
    if headings != [] then headings[0].text else FileStem(path).GetOr("Untitled")
  }

  // ---------------------------------------------------------------------
  // parse_markdown
  // ---------------------------------------------------------------------

  /** A heading as recorded in the metadata: level, text and 0-based line index. */
  datatype HeadingInfo = HeadingInfo(level: nat, text: string, line: nat)

  /** A chunk: trimmed content, its inclusive line range and its heading path. */
  datatype Chunk = Chunk(content: string, startLine: nat, endLine: nat, headings: seq<string>)

  /**
   * The heading path after a level-`level` heading: when the level is not
   * deeper than the path, the path is cut to `level - 1` entries first.
   */
  function UpdatePath(path: seq<string>, level: nat, text: string): (r: seq<string>)
    requires level >= 1
    ensures r != [] && r[|r| - 1] == text
    ensures r[..|r| - 1] == (if level <= |path| then path[..level - 1] else path)
  {
    (if level <= |path| then path[..level - 1] else path) + [text]
  }

  /** The path never runs deeper than its last heading's level. */
  lemma UpdatePathDepth(path: seq<string>, level: nat, text: string)
    requires level >= 1 && |path| < level
    ensures |UpdatePath(path, level, text)| <= level
  {
  }

  /** A heading at the path's own depth or shallower leaves exactly `level` entries. */
  lemma UpdatePathTruncates(path: seq<string>, level: nat, text: string)
    requires 1 <= level <= |path|
    ensures |UpdatePath(path, level, text)| == level
    ensures UpdatePath(path, level, text)[..level - 1] == path[..level - 1]
  {
  }

  /** A path no deeper than the last level stays so: depth is bounded by the current heading's level. */
  lemma UpdatePathBounded(path: seq<string>, level: nat, text: string)
    requires level >= 1
    ensures |UpdatePath(path, level, text)| <= level || |UpdatePath(path, level, text)| == |path| + 1
    ensures |UpdatePath(path, level, text)| <= |path| + 1
  {
  }

  /** What `parse_heading` can make of a line: nothing, or a heading of level one or more. */
  type Mark = o: Option<Heading> | o.Some? ==> o.value.level >= 1 witness None

  /** What `parse_heading` makes of each line of `ls`. */
  function Marks(ls: seq<string>): (m: seq<Mark>)
    ensures |m| == |ls|
  {
    if ls == [] then [] else Marks(ls[..|ls| - 1]) + [ParseHeading(ls[|ls| - 1])]
  }

  /** The mark of line `i` is what `parse_heading` makes of it. */
  lemma {:induction false} MarkAt(ls: seq<string>, i: nat)
    requires i < |ls|
    ensures Marks(ls)[i] == ParseHeading(ls[i])
  {
    if i < |ls| - 1 {
      var init := ls[..|ls| - 1];
      MarkAt(init, i);
      assert init[i] == ls[i];
    }
  }

  /** The marks of a prefix are the prefix of the marks. */
  lemma {:induction false} MarksPrefix(ls: seq<string>, n: nat)
    requires n <= |ls|
    ensures Marks(ls[..n]) == Marks(ls)[..n]
  {
    if n < |ls| {
      var init := ls[..|ls| - 1];
      MarksPrefix(init, n);
      assert init[..n] == ls[..n];
    } else {
      assert ls[..n] == ls;
    }
  }

  /** The path after one more line marked `m`. */
  function PathStep(path: seq<string>, m: Mark): seq<string> {
    match m
    case Some(h) => UpdatePath(path, h.level, h.text)
    case None => path
  }

  /** `current_headings` after the scanner has passed over the first `n` lines, marked `ms`. */
  function PathTo(ms: seq<Mark>, n: nat): seq<string>
    requires n <= |ms|
  {
    if n == 0 then [] else PathStep(PathTo(ms, n - 1), ms[n - 1])
  }

  /** Marks past the first `n` do not matter to the path after them. */
  lemma {:induction false} PathToExtend(ms: seq<Mark>, x: Mark, n: nat)
    requires n <= |ms|
    ensures PathTo(ms + [x], n) == PathTo(ms, n)
  {
    if n > 0 {
      PathToExtend(ms, x, n - 1);
      assert (ms + [x])[n - 1] == ms[n - 1];
    }
  }

  /** Only the first `n` marks matter to the path after them. */
  lemma {:induction false} PathToPrefix(ms: seq<Mark>, m: nat, n: nat)
    requires n <= m <= |ms|
    ensures PathTo(ms[..m], n) == PathTo(ms, n)
  {
    if n > 0 {
      PathToPrefix(ms, m, n - 1);
      assert ms[..m][n - 1] == ms[n - 1];
    }
  }

  /** `current_headings` after the scanner has passed over `ls`. */
  function PathAfter(ls: seq<string>): seq<string> {
    PathTo(Marks(ls), |ls|)
  }

  /** After a heading line, the innermost entry of the path is that heading's text. */
  lemma PathEndsWithLatestHeading(ls: seq<string>)
    requires ls != [] && ParseHeading(ls[|ls| - 1]).Some?
    ensures PathAfter(ls) != [] && PathAfter(ls)[|PathAfter(ls)| - 1] == ParseHeading(ls[|ls| - 1]).value.text
  {
    MarkAt(ls, |ls| - 1);
  }

  /** A line that is not a heading leaves the path alone. */
  lemma PathSkipsPlainLines(ls: seq<string>, line: string)
    requires ParseHeading(line).None?
    ensures PathAfter(ls + [line]) == PathAfter(ls)
  {
    assert (ls + [line])[..|ls|] == ls;
    assert Marks(ls + [line]) == Marks(ls) + [ParseHeading(line)];
    PathToExtend(Marks(ls), ParseHeading(line), |ls|);
  }

  /** The headings `parse_markdown` records for the first `n` lines, marked `ms`: one per heading, in order. */
  function HeadingsTo(ms: seq<Mark>, n: nat): seq<HeadingInfo>
    requires n <= |ms|
  {
    if n == 0 then []
    else
      var hs := HeadingsTo(ms, n - 1);
      match ms[n - 1]
      case Some(h) => hs + [HeadingInfo(h.level, h.text, n - 1)]
      case None => hs
  }

  /** The headings `parse_markdown` records for `ls`. */
  function HeadingsIn(ls: seq<string>): seq<HeadingInfo> {
    HeadingsTo(Marks(ls), |ls|)
  }

  /** Entry `e` records line `e.line` of `ls`, which `ParseHeading` accepts with `e`'s level and text. */
  predicate Records(ls: seq<string>, e: HeadingInfo) {
    e.line < |ls| && ParseHeading(ls[e.line]) == Some(Heading(e.level, e.text))
  }

  /**
   * `HeadingsIn` holds exactly the heading lines: each entry is a line that
   * `ParseHeading` accepts, with that line's level and text; the entries
   * come in strictly ascending line order; and every accepted line has an
   * entry.
   */
  lemma HeadingsInExact(ls: seq<string>)
    ensures forall k | 0 <= k < |HeadingsIn(ls)| :: Records(ls, HeadingsIn(ls)[k])
    ensures forall k, k' | 0 <= k < k' < |HeadingsIn(ls)| :: HeadingsIn(ls)[k].line < HeadingsIn(ls)[k'].line
    ensures forall i | 0 <= i < |ls| && ParseHeading(ls[i]).Some? :: Listed(HeadingsIn(ls), i)
  {
    var m := Marks(ls);
    HeadingsToSound(m, |ls|);
    HeadingsToComplete(m, |ls|);
    var hs := HeadingsIn(ls);
    forall k | 0 <= k < |hs| ensures Records(ls, hs[k]) {
      MarkAt(ls, hs[k].line);
    }
    forall i | 0 <= i < |ls| && ParseHeading(ls[i]).Some? ensures Listed(hs, i) {
      MarkAt(ls, i);
    }
  }

  /** Every entry records a marked line among the first `n`, in ascending order. */
  lemma {:induction false} HeadingsToSound(ms: seq<Mark>, n: nat)
    requires n <= |ms|
    ensures forall k | 0 <= k < |HeadingsTo(ms, n)| ::
      HeadingsTo(ms, n)[k].line < n &&
      ms[HeadingsTo(ms, n)[k].line] == Some(Heading(HeadingsTo(ms, n)[k].level, HeadingsTo(ms, n)[k].text))
    ensures forall k, k' | 0 <= k < k' < |HeadingsTo(ms, n)| :: HeadingsTo(ms, n)[k].line < HeadingsTo(ms, n)[k'].line
  {
    if n > 0 {
      HeadingsToSound(ms, n - 1);
    }
  }

  /** The title is the text of the first heading line, when there is one. */
  lemma TitleIsFirstHeading(lines: seq<string>, path: string, i: nat)
    requires i < |lines| && ParseHeading(lines[i]).Some?
    requires forall j | 0 <= j < i :: ParseHeading(lines[j]).None?
    ensures Title(HeadingsIn(lines), path) == ParseHeading(lines[i]).value.text
  {
    HeadingsInExact(lines);
    var hs := HeadingsIn(lines);
    assert Listed(hs, i);
    var k :| 0 <= k < |hs| && hs[k].line == i;
    assert Records(lines, hs[0]);
    assert hs[0].line == i;
  }

  /** Without a heading line, the title falls back to the file stem, then to `"Untitled"`. */
  lemma TitleWithoutHeadings(lines: seq<string>, path: string)
    requires forall j | 0 <= j < |lines| :: ParseHeading(lines[j]).None?
    ensures Title(HeadingsIn(lines), path) == FileStem(path).GetOr("Untitled")
  {
    HeadingsInExact(lines);
  }

  /** Some entry of `hs` records line `i`. */
  predicate Listed(hs: seq<HeadingInfo>, i: nat) {
    exists k | 0 <= k < |hs| :: hs[k].line == i
  }

  /** Every marked line among the first `n` has an entry. */
  lemma {:induction false} HeadingsToComplete(ms: seq<Mark>, n: nat)
    requires n <= |ms|
    ensures forall i | 0 <= i < n && ms[i].Some? :: Listed(HeadingsTo(ms, n), i)
  {
    if n > 0 {
      HeadingsToComplete(ms, n - 1);
      var hs := HeadingsTo(ms, n - 1);
      var all := HeadingsTo(ms, n);
      assert |hs| <= |all| && all[..|hs|] == hs by {
        match ms[n - 1] {
          case Some(h) => assert all == hs + [HeadingInfo(h.level, h.text, n - 1)];
          case None => assert all == hs;
        }
      }
      forall i | 0 <= i < n && ms[i].Some? ensures Listed(all, i) {
        if i < n - 1 {
          var k :| 0 <= k < |hs| && hs[k].line == i;
          assert all[k] == hs[k];
        } else {
          var h := ms[i].value;
          assert all == hs + [HeadingInfo(h.level, h.text, i)];
          assert all[|hs|].line == i;
        }
      }
    }
  }

  /** Only whitespace. */
  predicate Blank(s: string) {
    forall i | 0 <= i < |s| :: IsSpace(s[i])
  }

  /** `trim` leaves nothing exactly when the text is blank. */
  lemma TrimEmptyIffBlank(s: string)
    ensures Trim(s) == [] <==> Blank(s)
  {
    var t := TrimStart(s);
    TrimStartFacts(s);
    if t != [] {
      TrimEndFacts(t);
      assert !IsSpace(t[0]);
      assert TrimEnd(t) != [];
      assert t[0] == s[|s| - |t|];
    }
  }

  /** A block is blank exactly when every one of its lines is blank. */
  lemma {:induction false} BlankBlock(ls: seq<string>, s: nat, e: nat)
    requires s <= e <= |ls|
    ensures Blank(Block(ls, s, e)) <==> forall j | s <= j < e :: Blank(ls[j])
    decreases e
  {
    if e > s {
      BlankBlock(ls, s, e - 1);
      var a, last := Block(ls, s, e - 1), ls[e - 1];
      assert Blank(a + last + "\n") <==> Blank(a) && Blank(last) by {
        assert forall i | 0 <= i < |a| :: (a + last + "\n")[i] == a[i];
        assert forall i | 0 <= i < |last| :: (a + last + "\n")[|a| + i] == last[i];
      }
    }
  }

  /** A chunk's own facts: range within the text, content, heading path. */
  predicate ChunkOf(lines: seq<string>, c: Chunk) {
    c.startLine <= c.endLine < |lines| &&
    c.content == Trim(Block(lines, c.startLine, c.endLine + 1)) &&
    c.content != [] &&
    c.headings == PathTo(Marks(lines), c.endLine + 1)
  }

  /** A chunk's heading path is the one in force after its last line. */
  lemma ChunkPathIsPathAfter(lines: seq<string>, c: Chunk)
    requires ChunkOf(lines, c)
    ensures c.headings == PathAfter(lines[..c.endLine + 1])
  {
    var n := c.endLine + 1;
    MarksPrefix(lines, n);
    PathToPrefix(Marks(lines), n, n);
  }

  /** Some chunk's range contains line `j`. */
  ghost predicate Covered(chunks: seq<Chunk>, j: nat) {
    exists k | 0 <= k < |chunks| :: chunks[k].startLine <= j <= chunks[k].endLine
  }

  /** Line `j` is not a heading. */
  predicate Plain(marks: seq<Mark>, j: nat)
    requires j < |marks|
  {
    marks[j].None?
  }

  /** Line `j` does not close the chunk opened at line `s`: no `"---"` and content up to 2000 characters. */
  predicate Fits(lines: seq<string>, s: nat, j: nat)
    requires s <= j < |lines|
  {
    !StartsWith(lines[j], "---") && |Block(lines, s, j + 1)| <= 2000
  }

  /**
   * Lines `[s, e]`, marked `marks`, run through without a break: no heading
   * after the first line, and no line before the last that would have
   * closed the chunk.
   */
  predicate Runs(marks: seq<Mark>, lines: seq<string>, s: nat, e: nat)
    requires |marks| == |lines| && s <= e < |lines|
  {
    (forall j | s < j <= e :: Plain(marks, j)) &&
    (forall j | s <= j < e :: Fits(lines, s, j))
  }

  /** No line inside a chunk would have closed it. */
  predicate Unbroken(lines: seq<string>, c: Chunk)
    requires c.startLine <= c.endLine < |lines|
  {
    Runs(Marks(lines), lines, c.startLine, c.endLine)
  }

  /**
   * Line `e` ends the chunk opened at line `s` of `lines`, marked `marks`:
   * it is the last line, the next line is a heading, or line `e` itself
   * closes the chunk.
   */
  predicate Closer(marks: seq<Mark>, lines: seq<string>, s: nat, e: nat)
    requires |marks| == |lines| && s <= e < |lines|
  {
    e + 1 == |lines| || marks[e + 1].Some? || !Fits(lines, s, e)
  }

  /** The chunk ends where a chunk is closed, never earlier. */
  predicate Closed(lines: seq<string>, c: Chunk)
    requires c.startLine <= c.endLine < |lines|
  {
    Closer(Marks(lines), lines, c.startLine, c.endLine)
  }

  /** A chunk of `lines` that no line inside would have closed, ending where one is closed. */
  predicate Good(lines: seq<string>, c: Chunk) {
    ChunkOf(lines, c) && Unbroken(lines, c) && Closed(lines, c)
  }

  /** `Good`, with the marks of the lines given as `marks`. */
  predicate GoodIn(marks: seq<Mark>, lines: seq<string>, c: Chunk)
    requires |marks| == |lines|
  {
    c.startLine <= c.endLine < |lines| &&
    c.content == Trim(Block(lines, c.startLine, c.endLine + 1)) && c.content != [] &&
    c.headings == PathTo(marks, c.endLine + 1) &&
    Runs(marks, lines, c.startLine, c.endLine) && Closer(marks, lines, c.startLine, c.endLine)
  }

  lemma GoodInMarks(lines: seq<string>, c: Chunk)
    ensures GoodIn(Marks(lines), lines, c) <==> Good(lines, c)
  {
  }

  /** The chunk of lines `[s, e]`, or nothing when its text is blank. */
  function Emit(marks: seq<Mark>, lines: seq<string>, s: nat, e: nat): seq<Chunk>
    requires |marks| == |lines| && s <= e < |lines|
  {
    var text := Trim(Block(lines, s, e + 1));
    if text == [] then [] else [Chunk(text, s, e, PathTo(marks, e + 1))]
  }

  /**
   * The chunks of `lines`, marked `marks`, stated without the scanner, for
   * a chunk opened at line `s` that no line before `e` has closed: when
   * line `e` closes it, the chunk of lines `[s, e]` is kept unless its text
   * is blank and the next chunk opens on the line after; otherwise the
   * chunk takes in line `e + 1` as well.
   */
  function ChunksFrom(marks: seq<Mark>, lines: seq<string>, s: nat, e: nat): seq<Chunk>
    requires |marks| == |lines| && s <= e <= |lines|
    decreases |lines| - e
  {
    if e == |lines| then []
    else if Closer(marks, lines, s, e) then Emit(marks, lines, s, e) + ChunksFrom(marks, lines, e + 1, e + 1)
    else ChunksFrom(marks, lines, s, e + 1)
  }

  /** The chunks `parse_markdown` makes of `lines`: the first one opens on line 0. */
  function Chunks(lines: seq<string>): seq<Chunk> {
    ChunksFrom(Marks(lines), lines, 0, 0)
  }

  /** No line from `j` up to, but not including, `e` closes the chunk opened at line `s`. */
  predicate NoCloserBefore(marks: seq<Mark>, lines: seq<string>, s: nat, j: nat, e: nat)
    requires |marks| == |lines| && s <= j <= e < |lines|
    decreases e - j
  {
    j == e || (!Closer(marks, lines, s, j) && NoCloserBefore(marks, lines, s, j + 1, e))
  }

  /** In a chunk that runs unbroken, no line before the last closes it. */
  lemma {:induction false} RunsNoCloser(marks: seq<Mark>, lines: seq<string>, s: nat, j: nat, e: nat)
    requires |marks| == |lines| && s <= j <= e < |lines| && Runs(marks, lines, s, e)
    ensures NoCloserBefore(marks, lines, s, j, e)
    decreases e - j
  {
    if j < e {
      assert Plain(marks, j + 1) && Fits(lines, s, j);
      RunsNoCloser(marks, lines, s, j + 1, e);
    }
  }

  /**
   * A chunk that no line from `j` to `e - 1` closes, and that line `e`
   * closes, is the chunk of lines `[s, e]`, and the next chunk opens on the
   * line after.
   */
  lemma {:induction false} ChunksFromRun(marks: seq<Mark>, lines: seq<string>, s: nat, j: nat, e: nat)
    requires |marks| == |lines| && s <= j <= e < |lines|
    requires NoCloserBefore(marks, lines, s, j, e) && Closer(marks, lines, s, e)
    ensures ChunksFrom(marks, lines, s, j) == Emit(marks, lines, s, e) + ChunksFrom(marks, lines, e + 1, e + 1)
    decreases e - j
  {
    if j < e {
      ChunksFromStep(marks, lines, s, j);
      ChunksFromRun(marks, lines, s, j + 1, e);
    } else {
      ChunksFromClose(marks, lines, s, e);
    }
  }

  /** A line that closes the open chunk emits it, and the next chunk opens on the line after. */
  lemma ChunksFromClose(marks: seq<Mark>, lines: seq<string>, s: nat, e: nat)
    requires |marks| == |lines| && s <= e < |lines| && Closer(marks, lines, s, e)
    ensures ChunksFrom(marks, lines, s, e) == Emit(marks, lines, s, e) + ChunksFrom(marks, lines, e + 1, e + 1)
  {
  }

  /** A line that does not close the open chunk adds itself to it. */
  lemma ChunksFromStep(marks: seq<Mark>, lines: seq<string>, s: nat, j: nat)
    requires |marks| == |lines| && s <= j < |lines| && !Closer(marks, lines, s, j)
    ensures ChunksFrom(marks, lines, s, j) == ChunksFrom(marks, lines, s, j + 1)
  {
  }

  /** Every chunk of `cs` is good and opens on line `s` or later. */
  predicate AllGood(marks: seq<Mark>, lines: seq<string>, cs: seq<Chunk>, s: nat)
    requires |marks| == |lines|
  {
    forall k | 0 <= k < |cs| :: GoodIn(marks, lines, cs[k]) && s <= cs[k].startLine
  }

  lemma AllGoodConcat(marks: seq<Mark>, lines: seq<string>, a: seq<Chunk>, b: seq<Chunk>, s: nat, t: nat)
    requires |marks| == |lines| && AllGood(marks, lines, a, s) && AllGood(marks, lines, b, t) && s <= t
    ensures AllGood(marks, lines, a + b, s)
  {
    forall k | 0 <= k < |a + b| ensures GoodIn(marks, lines, (a + b)[k]) && s <= (a + b)[k].startLine {
      if k < |a| {
        assert (a + b)[k] == a[k];
      } else {
        assert (a + b)[k] == b[k - |a|];
      }
    }
  }

  /** The chunk closed at line `e`, if kept, is good and opens at `s`. */
  lemma EmitGood(marks: seq<Mark>, lines: seq<string>, s: nat, e: nat)
    requires |marks| == |lines| && s <= e < |lines|
    requires Runs(marks, lines, s, e) && Closer(marks, lines, s, e)
    ensures AllGood(marks, lines, Emit(marks, lines, s, e), s)
  {
  }

  /**
   * The chunks of a chunk opened at `s` that has run unbroken to line `e`
   * are good and open on line `s` or later.
   */
  lemma {:induction false} ChunksFromGood(marks: seq<Mark>, lines: seq<string>, s: nat, e: nat)
    requires |marks| == |lines| && s <= e <= |lines|
    requires e < |lines| ==> Runs(marks, lines, s, e)
    ensures AllGood(marks, lines, ChunksFrom(marks, lines, s, e), s)
    decreases |lines| - e
  {
    if e < |lines| {
      if Closer(marks, lines, s, e) {
        var rest := ChunksFrom(marks, lines, e + 1, e + 1);
        ChunksFromGood(marks, lines, e + 1, e + 1);
        GoodStep(marks, lines, s, e, rest);
      } else {
        RunsOn(marks, lines, s, e);
        ChunksFromGood(marks, lines, s, e + 1);
      }
    }
  }

  /** A line that does not close the chunk extends its unbroken run. */
  lemma RunsOn(marks: seq<Mark>, lines: seq<string>, s: nat, e: nat)
    requires |marks| == |lines| && s <= e < |lines|
    requires Runs(marks, lines, s, e) && !Closer(marks, lines, s, e)
    ensures Runs(marks, lines, s, e + 1)
  {
  }

  /** The chunk closed at `e`, if kept, followed by good chunks from after it, are all good. */
  lemma GoodStep(marks: seq<Mark>, lines: seq<string>, s: nat, e: nat, rest: seq<Chunk>)
    requires |marks| == |lines| && s <= e < |lines|
    requires Runs(marks, lines, s, e) && Closer(marks, lines, s, e)
    requires AllGood(marks, lines, rest, e + 1)
    ensures AllGood(marks, lines, Emit(marks, lines, s, e) + rest, s)
  {
    EmitGood(marks, lines, s, e);
    AllGoodConcat(marks, lines, Emit(marks, lines, s, e), rest, s, e + 1);
  }

  /** Each chunk of `cs` ends before the next one opens. */
  predicate Ascending(cs: seq<Chunk>) {
    forall k | 0 <= k < |cs| - 1 :: cs[k].endLine < cs[k + 1].startLine
  }

  /** The chunks of a chunk opened at `s` come in line order, each ending before the next opens. */
  lemma {:induction false} ChunksFromOrdered(marks: seq<Mark>, lines: seq<string>, s: nat, e: nat)
    requires |marks| == |lines| && s <= e <= |lines|
    ensures Ascending(ChunksFrom(marks, lines, s, e))
    decreases |lines| - e
  {
    if e < |lines| {
      if Closer(marks, lines, s, e) {
        var rest := ChunksFrom(marks, lines, e + 1, e + 1);
        ChunksFromOrdered(marks, lines, e + 1, e + 1);
        ChunksFromGood(marks, lines, e + 1, e + 1);
        OrderedStep(marks, lines, s, e, rest);
      } else {
        ChunksFromOrdered(marks, lines, s, e + 1);
      }
    }
  }

  /** The chunk of lines `[s, e]`, if kept, followed by ordered chunks opening after `e`, is ordered. */
  lemma OrderedStep(marks: seq<Mark>, lines: seq<string>, s: nat, e: nat, rest: seq<Chunk>)
    requires |marks| == |lines| && s <= e < |lines|
    requires Ascending(rest) && (rest != [] ==> e < rest[0].startLine)
    ensures Ascending(Emit(marks, lines, s, e) + rest)
  {
    var head := Emit(marks, lines, s, e);
    var cs := head + rest;
    forall k | 0 <= k < |cs| - 1 ensures cs[k].endLine < cs[k + 1].startLine {
      if k < |head| {
        assert cs[k] == head[0] && cs[k + 1] == rest[0];
      } else {
        assert cs[k] == rest[k - |head|] && cs[k + 1] == rest[k - |head| + 1];
      }
    }
  }

  /** Every line from `s` on that is not blank lies in one of the chunks `cs`. */
  ghost predicate CoversFrom(lines: seq<string>, cs: seq<Chunk>, s: nat) {
    forall j | s <= j < |lines| && !Blank(lines[j]) :: Covered(cs, j)
  }

  /** Every line from `s` on that is not blank lies in one of the chunks of the chunk opened at `s`. */
  lemma {:induction false} ChunksFromCover(marks: seq<Mark>, lines: seq<string>, s: nat, e: nat)
    requires |marks| == |lines| && s <= e <= |lines| && (e == |lines| ==> s == e)
    ensures CoversFrom(lines, ChunksFrom(marks, lines, s, e), s)
    decreases |lines| - e
  {
    if e < |lines| {
      if Closer(marks, lines, s, e) {
        var rest := ChunksFrom(marks, lines, e + 1, e + 1);
        ChunksFromCover(marks, lines, e + 1, e + 1);
        CoverStep(marks, lines, s, e, rest);
      } else {
        ChunksFromCover(marks, lines, s, e + 1);
      }
    }
  }

  /** The lines `[s, e]` are covered by their chunk or are blank; those after `e` are covered by `rest`. */
  lemma CoverStep(marks: seq<Mark>, lines: seq<string>, s: nat, e: nat, rest: seq<Chunk>)
    requires |marks| == |lines| && s <= e < |lines| && CoversFrom(lines, rest, e + 1)
    ensures CoversFrom(lines, Emit(marks, lines, s, e) + rest, s)
  {
    var head := Emit(marks, lines, s, e);
    var cs := head + rest;
    if head == [] {
      TrimEmptyIffBlank(Block(lines, s, e + 1));
      BlankBlock(lines, s, e + 1);
    }
    forall j | s <= j < |lines| && !Blank(lines[j]) ensures Covered(cs, j) {
      if j <= e {
        assert cs[0] == head[0];
      } else {
        assert Covered(rest, j);
        var k :| 0 <= k < |rest| && rest[k].startLine <= j <= rest[k].endLine;
        assert cs[|head| + k] == rest[k];
      }
    }
  }

  /**
   * What the chunks of `parse_markdown` are: each is good, they come in
   * line order, and every line that is not blank lies in one of them.
   */
  lemma ChunksFacts(lines: seq<string>)
    ensures forall k | 0 <= k < |Chunks(lines)| :: Good(lines, Chunks(lines)[k])
    ensures Ascending(Chunks(lines))
    ensures forall j | 0 <= j < |lines| && !Blank(lines[j]) :: Covered(Chunks(lines), j)
  {
    var marks, cs := Marks(lines), Chunks(lines);
    ChunksFromGood(marks, lines, 0, 0);
    ChunksFromOrdered(marks, lines, 0, 0);
    ChunksFromCover(marks, lines, 0, 0);
    forall k | 0 <= k < |cs| ensures Good(lines, cs[k]) {
      GoodInMarks(lines, cs[k]);
    }
  }

  /** The open chunk `[start, i)` has met nothing that closes it. */
  predicate Open(marks: seq<Mark>, lines: seq<string>, start: nat, i: nat)
    requires |marks| == |lines| && start <= i <= |lines|
  {
    (forall j | start < j < i :: Plain(marks, j)) &&
    (forall j | start <= j < i :: Fits(lines, start, j))
  }

  /** The chunks emitted so far, followed by the chunks from line `start` on, are all the chunks. */
  predicate Agrees(lines: seq<string>, chunks: seq<Chunk>, start: nat)
    requires start <= |lines|
  {
    chunks + ChunksFrom(Marks(lines), lines, start, start) == Chunks(lines)
  }

  /**
   * `parse_markdown`: one pass over the lines collecting the headings, the
   * heading path and the chunks. A chunk is closed before a heading line,
   * and after a line that starts with `"---"` or brings the content past
   * 2000 characters; a chunk whose content is blank is dropped.
   */
  method ParseMarkdown(content: string) returns (chunks: seq<Chunk>, headings: seq<HeadingInfo>)
    ensures headings == HeadingsIn(Lines(content))
    ensures chunks == Chunks(Lines(content))
  {
    chunks, headings := ScanLines(Lines(content));
  }

  /** The loop of `parse_markdown` over the lines of the content. */
  method ScanLines(lines: seq<string>) returns (chunks: seq<Chunk>, headings: seq<HeadingInfo>)
    ensures headings == HeadingsIn(lines)
    ensures chunks == Chunks(lines)
  {
    chunks, headings := [], [];
    var path: seq<string> := [];
    var start: nat, i: nat := 0, 0;
    var buffer: string := [];
    ScanStarts(lines);
    while i < |lines|
      invariant Scanned(lines, chunks, headings, path, start, i, buffer)
    {
      chunks, headings, path, start, buffer := ScanLine(lines, chunks, headings, path, start, i, buffer);
      i := i + 1;
    }
    chunks := Finish(lines, chunks, headings, start, buffer, path);
  }

  /** Before the first line nothing has been scanned. */
  lemma ScanStarts(lines: seq<string>)
    ensures Scanned(lines, [], [], [], 0, 0, [])
  {
    assert [] + ChunksFrom(Marks(lines), lines, 0, 0) == Chunks(lines);
  }

  /** After the loop the last open chunk is closed, which completes the chunks. */
  method Finish(lines: seq<string>, chunks: seq<Chunk>, headings: seq<HeadingInfo>, start: nat, buffer: string,
                path: seq<string>)
    returns (result: seq<Chunk>)
    requires Scanned(lines, chunks, headings, path, start, |lines|, buffer)
    ensures result == Chunks(lines)
  {
    if start < |lines| {
      OpenRuns(Marks(lines), lines, start, |lines| - 1);
    }
    result := Flush(lines, chunks, start, |lines|, buffer, path);
    assert result + [] == result;
  }

  /**
   * The state of the scan before line `i`: the buffer holds the lines of the
   * open chunk from `start`, `path` and `headings` reflect every heading
   * before `i`, and the chunks so far followed by those from `start` on are
   * all the chunks.
   */
  ghost predicate Scanned(lines: seq<string>, chunks: seq<Chunk>, headings: seq<HeadingInfo>, path: seq<string>,
                    start: nat, i: nat, buffer: string)
  {
    start <= i <= |lines| &&
    buffer == Block(lines, start, i) &&
    path == PathTo(Marks(lines), i) &&
    headings == HeadingsTo(Marks(lines), i) &&
    Agrees(lines, chunks, start) &&
    Open(Marks(lines), lines, start, i)
  }

  /**
   * One turn of the loop of `parse_markdown`: a heading line closes the open
   * chunk and updates the heading path, then the line joins the buffer.
   */
  method ScanLine(lines: seq<string>, chunks: seq<Chunk>, headings: seq<HeadingInfo>, path: seq<string>,
                  start: nat, i: nat, buffer: string)
    returns (chunks': seq<Chunk>, headings': seq<HeadingInfo>, path': seq<string>, start': nat, buffer': string)
    requires i < |lines| && Scanned(lines, chunks, headings, path, start, i, buffer)
    ensures Scanned(lines, chunks', headings', path', start', i + 1, buffer')
  {
    ghost var marks := Marks(lines);
    chunks', headings', path', start', buffer' := chunks, headings, path, start, buffer;
    var mark := LineMark(lines, i);
    match mark {
      case Some(h) =>
        if start < i {
          OpenRuns(marks, lines, start, i - 1);
        }
        chunks' := Flush(lines, chunks, start, i, buffer, path);
        headings' := headings + [HeadingInfo(h.level, h.text, i)];
        path' := UpdatePath(path, h.level, h.text);
        start', buffer' := i, [];
      case None =>
    }
    chunks', start', buffer' := Absorb(lines, chunks', start', i, buffer', path');
  }

  /** `parse_heading` applied to line `i`. */
  method LineMark(lines: seq<string>, i: nat) returns (m: Mark)
    requires i < |lines|
    ensures m == Marks(lines)[i]
  {
    MarkAt(lines, i);
    m := ParseHeading(lines[i]);
  }

  /**
   * Appending line `i` to the current chunk, which is then closed when it
   * has grown past 2000 characters or the line starts with `---`.
   */
  method Absorb(lines: seq<string>, chunks: seq<Chunk>, start: nat, i: nat, buffer: string, path: seq<string>)
    returns (result: seq<Chunk>, start': nat, buffer': string)
    requires start <= i < |lines|
    requires buffer == Block(lines, start, i) && path == PathTo(Marks(lines), i + 1)
    requires Agrees(lines, chunks, start)
    requires Open(Marks(lines), lines, start, i) && (start == i || Plain(Marks(lines), i))
    ensures var grown := buffer + lines[i] + "\n";
      if |grown| > 2000 || StartsWith(lines[i], "---") then
        start' == i + 1 && buffer' == [] &&
        result == (if Trim(grown) != [] then chunks + [Chunk(Trim(grown), start, i, path)] else chunks)
      else
        start' == start && buffer' == grown && result == chunks
    ensures start' <= i + 1 && buffer' == Block(lines, start', i + 1)
    ensures Agrees(lines, result, start')
    ensures Open(Marks(lines), lines, start', i + 1)
  {
    ghost var marks := Marks(lines);
    var line := lines[i];
    var grown := buffer + line + "\n";
    assert grown == Block(lines, start, i + 1);
    if |grown| > 2000 || StartsWith(line, "---") {
      result := CloseWith(lines, chunks, start, i, grown, path);
      start', buffer' := i + 1, [];
    } else {
      ExtendOpen(marks, lines, start, i);
      result, start', buffer' := chunks, start, grown;
    }
  }

  /** Closing the open chunk together with line `i`. */
  method CloseWith(lines: seq<string>, chunks: seq<Chunk>, start: nat, i: nat, grown: string, path: seq<string>)
    returns (result: seq<Chunk>)
    requires start <= i < |lines|
    requires grown == Block(lines, start, i + 1) && path == PathTo(Marks(lines), i + 1)
    requires Agrees(lines, chunks, start)
    requires Open(Marks(lines), lines, start, i) && (start == i || Plain(Marks(lines), i))
    requires |grown| > 2000 || StartsWith(lines[i], "---")
    ensures result == (if Trim(grown) != [] then chunks + [Chunk(Trim(grown), start, i, path)] else chunks)
    ensures Agrees(lines, result, i + 1)
  {
    ClosingRuns(Marks(lines), lines, start, i);
    result := Flush(lines, chunks, start, i + 1, grown, path);
  }

  /**
   * Closing the chunk that holds lines `start` to `end - 1`: it is kept
   * when its trimmed text is not empty, and the chunks from `end` on are
   * what is left to emit.
   */
  method Flush(lines: seq<string>, chunks: seq<Chunk>, start: nat, end: nat, buffer: string, path: seq<string>)
    returns (result: seq<Chunk>)
    requires start <= end <= |lines|
    requires buffer == Block(lines, start, end) && path == PathTo(Marks(lines), end)
    requires start < end ==> Runs(Marks(lines), lines, start, end - 1) && Closer(Marks(lines), lines, start, end - 1)
    requires Agrees(lines, chunks, start)
    ensures Trim(buffer) != [] ==> result == chunks + [Chunk(Trim(buffer), start, end - 1, path)]
    ensures Trim(buffer) == [] ==> result == chunks
    ensures Agrees(lines, result, end)
  {
    var text := Trim(buffer);
    ghost var marks := Marks(lines);
    if start < end {
      AgreesAfter(lines, chunks, start, end - 1);
      assert Emit(marks, lines, start, end - 1) == (if text == [] then [] else [Chunk(text, start, end - 1, path)]);
    }
    if text != [] {
      result := chunks + [Chunk(text, start, end - 1, path)];
    } else {
      result := chunks;
    }
  }

  /** Emitting the chunk of lines `[start, e]`, closed at `e`, leaves the chunks from `e + 1` on to emit. */
  lemma AgreesAfter(lines: seq<string>, chunks: seq<Chunk>, start: nat, e: nat)
    requires start <= e < |lines|
    requires Runs(Marks(lines), lines, start, e) && Closer(Marks(lines), lines, start, e)
    requires Agrees(lines, chunks, start)
    ensures Agrees(lines, chunks + Emit(Marks(lines), lines, start, e), e + 1)
  {
    var marks := Marks(lines);
    var head, rest := Emit(marks, lines, start, e), ChunksFrom(marks, lines, e + 1, e + 1);
    RunsNoCloser(marks, lines, start, start, e);
    ChunksFromRun(marks, lines, start, start, e);
    Regroup(chunks, head, rest, Chunks(lines));
  }

  lemma Regroup<T>(a: seq<T>, b: seq<T>, c: seq<T>, d: seq<T>)
    requires a + (b + c) == d
    ensures (a + b) + c == d
  {
    assert a + (b + c) == (a + b) + c;
  }

  /** An open chunk whose next line is a heading or the end runs unbroken up to its last line. */
  lemma OpenRuns(marks: seq<Mark>, lines: seq<string>, start: nat, end: nat)
    requires |marks| == |lines| && start <= end < |lines| && Open(marks, lines, start, end + 1)
    ensures Runs(marks, lines, start, end)
  {
  }

  /** An open chunk closed after line `i` runs unbroken through line `i`. */
  lemma ClosingRuns(marks: seq<Mark>, lines: seq<string>, start: nat, i: nat)
    requires |marks| == |lines| && start <= i < |lines| && Open(marks, lines, start, i)
    requires start == i || Plain(marks, i)
    ensures Runs(marks, lines, start, i)
  {
  }

  /** A line that neither opens nor closes a chunk extends the open chunk. */
  lemma ExtendOpen(marks: seq<Mark>, lines: seq<string>, start: nat, i: nat)
    requires |marks| == |lines| && start <= i < |lines| && Open(marks, lines, start, i)
    requires start == i || Plain(marks, i)
    requires Fits(lines, start, i)
    ensures Open(marks, lines, start, i + 1)
  {
  }
}
