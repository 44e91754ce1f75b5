/**
 * The commit-message choice of `scripts/mygit.ts`: the message given on the
 * command line, or else an `Auto-Summary` built from `git status --short`.
 * The git calls themselves are left to the caller: `rawStatus` is what the
 * status command printed.
 */
module GitSummary {
  import opened Text
  import opened Seqs

  /** What the script goes on to do: nothing, or commit with this message. */
  datatype Plan = NoChanges | Commit(message: string)

  /** The summary names at most this many files. */
  const ShownEntries: nat := 5

  function Min(a: nat, b: nat): nat {
    if a < b then a else b
  }

  /** The verb for a status flag; an unlisted flag reads as an update. */
  function ActionOf(flag: string): (r: string)
    ensures r == "更新" <==> flag != "M" && flag != "A" && flag != "??" && flag != "D" && flag != "R"
  {
    if flag == "M" then "修改"
    else if flag == "A" then "新增"
    else if flag == "??" then "添加"
    else if flag == "D" then "删除"
    else if flag == "R" then "重命名"
    else "更新"
  }

  /** `line.substring(0, 2).trim()`. */
  function Flag(line: string): string {
    Trim(line[..Min(2, |line|)])
  }

  /** `line.substring(3)`: empty when the line is shorter. */
  function FileOf(line: string): string {
    line[Min(3, |line|)..]
  }

  /** One summary entry: the verb and the last segment of the path. */
  function Entry(line: string): string {
    ActionOf(Flag(line)) + ": " + AfterLast(FileOf(line), '/')
  }

  /** `lines.map(...)`: one entry per line, in order. */
  function Entries(lines: seq<string>): (r: seq<string>)
    ensures |r| == |lines|
  {
    Map(Entry, lines)
  }

  /** The fallback message: the first five entries, and a marker when there are more. */
  function AutoSummary(lines: seq<string>): string {
    var entries := Entries(lines);
    "Auto-Summary: " + Join(entries[..Min(ShownEntries, |entries|)], ", ") +
      (if |entries| > ShownEntries then " 等..." else "")
  }

  /** `process.argv.slice(2).join(" ").trim()`. */
  function ArgMessage(args: seq<string>): string {
    Trim(Join(args, " "))
  }

  /**
   * `main` as written: `runGit` trims the whole status output, and the
   * summary splits that trimmed text into lines.
   */
  function CommitPlanAsWritten(rawStatus: string, args: seq<string>): Plan {
    var status := Trim(rawStatus);
    if status == [] then NoChanges
    else if ArgMessage(args) != [] then Commit(ArgMessage(args))
    else Commit(AutoSummary(Split(status, '\n')))
  }

  /**
   * `main` as evidently intended: the emptiness check as written, but the
   * lines keep their leading status column, only the trailing newline is
   * dropped.
   */
  function CommitPlan(rawStatus: string, args: seq<string>): Plan {
    if Trim(rawStatus) == [] then NoChanges
    else if ArgMessage(args) != [] then Commit(ArgMessage(args))
    else Commit(AutoSummary(Split(TrimEnd(rawStatus), '\n')))
  }

  // ---------------------------------------------------------------------
  // What the script promises
  // ---------------------------------------------------------------------

  /** No commit is made exactly when the status output is blank; a given message is used as it is. */
  lemma PlanChoice(rawStatus: string, args: seq<string>)
    ensures CommitPlan(rawStatus, args) == NoChanges <==> Trim(rawStatus) == []
    ensures CommitPlanAsWritten(rawStatus, args) == NoChanges <==> Trim(rawStatus) == []
    ensures Trim(rawStatus) != [] && ArgMessage(args) != [] ==>
      CommitPlan(rawStatus, args) == Commit(ArgMessage(args)) &&
      CommitPlanAsWritten(rawStatus, args) == Commit(ArgMessage(args))
  {
  }

  /** Up to five lines, every entry is shown and nothing is appended. */
  lemma ShortSummary(lines: seq<string>)
    requires |lines| <= ShownEntries
    ensures AutoSummary(lines) == "Auto-Summary: " + Join(Entries(lines), ", ")
  {
    assert Entries(lines)[..|lines|] == Entries(lines);
  }

  /** Beyond five lines, the first five entries are shown and the marker is appended. */
  lemma LongSummary(lines: seq<string>)
    requires |lines| > ShownEntries
    ensures AutoSummary(lines) == "Auto-Summary: " + Join(Entries(lines[..ShownEntries]), ", ") + " 等..."
  {
    MapPrefix(Entry, lines, ShownEntries);
  }

  /** A status line `XY path` gives the verb of its trimmed flag and the last segment of its path. */
  lemma EntryOfStatusLine(x: char, y: char, path: string)
    ensures Entry([x, y, ' '] + path) == ActionOf(Trim([x, y])) + ": " + AfterLast(path, '/')
  {
    var line := [x, y, ' '] + path;
    assert line[..2] == [x, y];
    assert line[3..] == path;
  }

  // ---------------------------------------------------------------------
  // Status listings
  // ---------------------------------------------------------------------

  /** One line of `git status --short`: the index column, the work-tree column and the path. */
  datatype StatusLine = StatusLine(x: char, y: char, path: string)

  predicate WellFormed(l: StatusLine) {
    l.x != '\n' && l.y != '\n' && '\n' !in l.path && l.path != [] && !IsSpace(l.path[|l.path| - 1])
  }

  function LineText(l: StatusLine): string {
    [l.x, l.y, ' '] + l.path
  }

  function Texts(ls: seq<StatusLine>): (r: seq<string>)
    ensures |r| == |ls|
  {
    Map(LineText, ls)
  }

  /** What git prints: the lines, each ended by a newline. */
  function Render(ls: seq<StatusLine>): string {
    Join(Texts(ls), "\n") + "\n"
  }

  /** Splitting what was joined with a separator absent from the pieces gives the pieces back. */
  lemma {:induction false} SplitJoin(parts: seq<string>, c: char)
    requires |parts| >= 1 && forall k | 0 <= k < |parts| :: c !in parts[k]
    ensures Split(Join(parts, [c]), c) == parts
  {
    if |parts| == 1 {
      SplitUnbroken(parts[0], c);
    } else {
      SplitJoin(parts[1..], c);
      SplitAfterPiece(parts[0], c, Join(parts[1..], [c]));
      assert [parts[0]] + parts[1..] == parts;
    }
  }

  /** A join ends with the last character of its last piece. */
  lemma {:induction false} JoinLast(parts: seq<string>, sep: string)
    requires |parts| >= 1 && parts[|parts| - 1] != []
    ensures var j := Join(parts, sep); j != [] && j[|j| - 1] == parts[|parts| - 1][|parts[|parts| - 1]| - 1]
  {
    if |parts| > 1 {
      JoinLast(parts[1..], sep);
    }
  }

  /** With a non-space character anywhere, the trimmed text is not empty. */
  lemma TrimNotEmpty(s: string, k: nat)
    requires k < |s| && !IsSpace(s[k])
    ensures Trim(s) != []
  {
    var t := TrimStart(s);
    TrimStartFacts(s);
    TrimEndFacts(t);
  }

  /** The lines the corrected plan reads from a rendered listing are exactly the listing's lines. */
  lemma LinesOfRender(ls: seq<StatusLine>)
    requires |ls| >= 1 && forall i | 0 <= i < |ls| :: WellFormed(ls[i])
    ensures Trim(Render(ls)) != []
    ensures Split(TrimEnd(Render(ls)), '\n') == Texts(ls)
  {
    var ts := Texts(ls);
    var j := Join(ts, "\n");
    MapAt(LineText, ls, |ls| - 1);
    JoinLast(ts, "\n");
    assert !IsSpace(j[|j| - 1]);
    assert Render(ls)[..|j|] == j;
    TrimEndOfUnspaced(j);
    assert TrimEnd(Render(ls)) == j;
    TrimNotEmpty(Render(ls), |j| - 1);
    forall k | 0 <= k < |ts|
      ensures '\n' !in ts[k]
    {
      MapAt(LineText, ls, k);
      assert ts[k] == [ls[k].x, ls[k].y, ' '] + ls[k].path;
    }
    SplitJoin(ts, '\n');
  }

  /**
   * With the correction every status line contributes its own verb and the
   * last segment of its whole path.
   */
  lemma SummaryNamesEveryPath(ls: seq<StatusLine>, args: seq<string>)
    requires |ls| >= 1 && forall i | 0 <= i < |ls| :: WellFormed(ls[i])
    requires ArgMessage(args) == []
    ensures CommitPlan(Render(ls), args) == Commit(AutoSummary(Texts(ls)))
    ensures forall i | 0 <= i < |ls| ::
      Entries(Texts(ls))[i] == ActionOf(Trim([ls[i].x, ls[i].y])) + ": " + AfterLast(ls[i].path, '/')
  {
    LinesOfRender(ls);
    forall i | 0 <= i < |ls|
      ensures Entries(Texts(ls))[i] == ActionOf(Trim([ls[i].x, ls[i].y])) + ": " + AfterLast(ls[i].path, '/')
    {
      MapAt(LineText, ls, i);
      MapAt(Entry, Texts(ls), i);
      EntryOfStatusLine(ls[i].x, ls[i].y, ls[i].path);
    }
  }

  /** The verb of a work-tree modification. */
  lemma ModifiedVerb()
    ensures ActionOf("M") == "修改"
  {
  }

  /** A one-line status gives the summary of that line alone. */
  lemma SummaryOfOne(line: string)
    ensures AutoSummary([line]) == "Auto-Summary: " + Entry(line)
  {
    var e := Entry(line);
    ShortSummary([line]);
    assert [line][1..] == [];
    assert Entries([line]) == [e];
    JoinOne(e, ", ");
  }

  lemma JoinOne(piece: string, sep: string)
    ensures Join([piece], sep) == piece
  {
  }

  /** The trimmed output of a single ` M path` line has lost its blank index column. */
  lemma TrimmedStatusLine(path: string)
    requires |path| >= 1 && !IsSpace(path[|path| - 1])
    ensures Trim(" M " + path + "\n") == "M " + path
  {
    var raw := " M " + path + "\n";
    var trimmed := "M " + path;
    assert TrimStart(raw) == raw[1..];
    assert raw[1..] == trimmed + "\n";
    assert (trimmed + "\n")[..|trimmed|] == trimmed;
    TrimEndOfUnspaced(trimmed);
  }

  /** `M ` trims to the flag `M`. */
  lemma FlagOfShiftedLine(path: string)
    ensures Flag("M " + path) == "M"
  {
    var line := "M " + path;
    assert line[..2] == "M ";
    assert TrimStart("M ") == "M ";
    assert TrimEnd("M ") == TrimEnd("M");
  }

  /** The line `M path` is read with flag `M` and a file name one character into the path. */
  lemma EntryOfShiftedLine(path: string)
    requires |path| >= 1 && '/' !in path
    ensures Entry("M " + path) == "修改: " + path[1..]
  {
    var line := "M " + path;
    FlagOfShiftedLine(path);
    ModifiedVerb();
    assert FileOf(line) == path[1..];
    SuffixAvoids(path, 1, '/');
  }

  /**
   * As written, a file modified only in the work tree and listed first
   * (` M path`) is named without its first character: trimming the output
   * removes the blank index column, and `substring(3)` then starts one
   * character into the path.
   */
  lemma AsWrittenDropsFirstCharacter(path: string)
    requires |path| >= 1 && '\n' !in path && '/' !in path && !IsSpace(path[|path| - 1])
    ensures CommitPlanAsWritten(" M " + path + "\n", []) == Commit("Auto-Summary: " + ("修改: " + path[1..]))
  {
    var line := "M " + path;
    TrimmedStatusLine(path);
    assert '\n' !in line;
    SplitUnbroken(line, '\n');
    assert ArgMessage([]) == [];
    EntryOfShiftedLine(path);
    SummaryOfOne(line);
  }

  /** Dropping the trailing newline of a line that does not end in whitespace. */
  lemma TrimEndOfLine(line: string)
    requires line != [] && !IsSpace(line[|line| - 1])
    ensures TrimEnd(line + "\n") == line
  {
    assert (line + "\n")[..|line|] == line;
    TrimEndOfUnspaced(line);
  }

  /** A path without `/` is its own last segment. */
  lemma NameOfPlainPath(path: string)
    requires '/' !in path
    ensures AfterLast(path, '/') == path
  {
  }

  /** The line ` M path` is read with flag `M` and the whole path. */
  lemma EntryOfModifiedLine(path: string)
    requires '/' !in path
    ensures Entry(" M " + path) == "修改: " + path
  {
    var line := " M " + path;
    FlagOfModifiedLine(path);
    ModifiedVerb();
    assert FileOf(line) == path;
    NameOfPlainPath(path);
  }

  /** ` M` trims to the flag `M`. */
  lemma FlagOfModifiedLine(path: string)
    ensures Flag(" M " + path) == "M"
  {
    var line := " M " + path;
    assert line[..2] == " M";
    assert TrimStart(" M") == "M";
    assert TrimEnd("M") == "M";
  }

  /** With the correction the same line names the whole path. */
  lemma CorrectedKeepsFirstCharacter(path: string)
    requires |path| >= 1 && '\n' !in path && '/' !in path && !IsSpace(path[|path| - 1])
    ensures CommitPlan(" M " + path + "\n", []) == Commit("Auto-Summary: " + ("修改: " + path))
  {
    var line := " M " + path;
    TrimmedStatusLine(path);
    assert ArgMessage([]) == [];
    TrimEndOfLine(line);
    assert '\n' !in line;
    SplitUnbroken(line, '\n');
    EntryOfModifiedLine(path);
    SummaryOfOne(line);
  }
}
