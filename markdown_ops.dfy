/**
 * The markdown toolbar command engine.
 *
 * Every toolbar command reads the editor's document and its main selection,
 * computes ONE change (a range of the old document, the text that replaces
 * it and the new caret) and hands it to the editor in a single dispatch,
 * then gives the editor the input focus. The change of each command is a
 * pure function of the document and the selection (`WrapChange`,
 * `HeadingChange`, ...); the `Editor` class applies it.
 */
module MarkdownOps {
  import opened Text
  import opened Wrappers

  // ---------------------------------------------------------------------
  // Lines of a document
  // ---------------------------------------------------------------------

  /** The line that contains an offset: its start, its end (before the line break) and its text. */
  datatype Line = Line(from: nat, to: nat, text: string)

  /** Offset of the first character of the line that contains `pos`. */
  function LineStart(doc: string, pos: nat): (s: nat)
    requires pos <= |doc|
    ensures s <= pos
    ensures s == 0 || doc[s - 1] == '\n'
    ensures forall i | s <= i < pos :: doc[i] != '\n'
  {
    if pos == 0 || doc[pos - 1] == '\n' then pos else LineStart(doc, pos - 1)
  }

  /** Offset just past the last character of the line that contains `pos`. */
  function LineEnd(doc: string, pos: nat): (e: nat)
    requires pos <= |doc|
    ensures pos <= e <= |doc|
    ensures e == |doc| || doc[e] == '\n'
    ensures forall i | pos <= i < e :: doc[i] != '\n'
    decreases |doc| - pos
  {
    if pos == |doc| || doc[pos] == '\n' then pos else LineEnd(doc, pos + 1)
  }

  /** A line of `doc`: a maximal stretch of characters between line breaks. */
  ghost predicate IsLineOf(doc: string, l: Line) {
    l.from <= l.to <= |doc| &&
    (l.from == 0 || doc[l.from - 1] == '\n') &&
    (l.to == |doc| || doc[l.to] == '\n') &&
    (forall i | l.from <= i < l.to :: doc[i] != '\n') &&
    l.text == doc[l.from..l.to]
  }

  /** The line containing offset `pos` (CodeMirror's `doc.lineAt`). */
  function LineAt(doc: string, pos: nat): (l: Line)
    requires pos <= |doc|
    ensures l.from <= pos <= l.to
    ensures IsLineOf(doc, l)
    ensures '\n' !in l.text
  {
    var s, e := LineStart(doc, pos), LineEnd(doc, pos);
    Line(s, e, doc[s..e])
  }

  /** A line is determined by any offset inside it: `LineAt` finds exactly that line. */
  lemma LineAtUnique(doc: string, pos: nat, l: Line)
    requires IsLineOf(doc, l) && l.from <= pos <= l.to
    ensures LineAt(doc, pos) == l
  {
  }

  // ---------------------------------------------------------------------
  // Changes
  // ---------------------------------------------------------------------

  /** One dispatch: replace `[from, to)` of the old document by `insert`, then put the caret at `caret`. */
  datatype Change = Change(from: nat, to: nat, insert: string, caret: nat)

  /** The range lies in the document and the caret lies in the document that results. */
  predicate Fits(doc: string, c: Change) {
    c.from <= c.to <= |doc| && c.caret <= |doc| - (c.to - c.from) + |c.insert|
  }

  /** The document after the change. */
  function Apply(doc: string, c: Change): (r: string)
    requires c.from <= c.to <= |doc|
    ensures |r| == |doc| - (c.to - c.from) + |c.insert|
    ensures r[..c.from] == doc[..c.from]
    ensures r[c.from..c.from + |c.insert|] == c.insert
    ensures r[c.from + |c.insert|..] == doc[c.to..]
  {
    doc[..c.from] + c.insert + doc[c.to..]
  }

  /** A change that rewrites the line containing `pos` to `text`, caret at the end of the new line. */
  function LineChange(doc: string, pos: nat, text: string): (c: Change)
    requires pos <= |doc|
    ensures Fits(doc, c)
  {
    var l := LineAt(doc, pos);
    Change(l.from, l.to, text, l.from + |text|)
  }

  /**
   * After a line rewrite without line breaks, the caret sits at the end of
   * a line whose text is exactly the new text, starting where the old line
   * started; the text before and after that line is untouched.
   */
  lemma LineChangeLands(doc: string, pos: nat, text: string)
    requires pos <= |doc| && '\n' !in text
    ensures var l, c := LineAt(doc, pos), LineChange(doc, pos, text);
      var d := Apply(doc, c);
      d == doc[..l.from] + text + doc[l.to..] &&
      c.caret == l.from + |text| &&
      LineAt(d, c.caret) == Line(l.from, l.from + |text|, text)
  {
    var l, c := LineAt(doc, pos), LineChange(doc, pos, text);
    var d := Apply(doc, c);
    var n := Line(l.from, l.from + |text|, text);
    assert d[l.from..l.from + |text|] == text;
    forall i | l.from <= i < l.from + |text| ensures d[i] != '\n' {
      assert d[i] == text[i - l.from];
    }
    if l.from > 0 {
      assert d[l.from - 1] == doc[..l.from][l.from - 1];
    }
    if l.from + |text| < |d| {
      assert d[l.from + |text|] == d[l.from + |text|..][0] == doc[l.to..][0];
    }
    assert IsLineOf(d, n);
    LineAtUnique(d, c.caret, n);
  }

  // ---------------------------------------------------------------------
  // wrapSelection
  // ---------------------------------------------------------------------

  /** `wrapSelection(prefix, suffix?)`: the suffix defaults to the prefix. */
  function WrapChange(doc: string, from: nat, to: nat, prefix: string, suffix: Option<string>): (c: Change)
    requires from <= to <= |doc|
    ensures Fits(doc, c)
  {
    var after := suffix.GetOr(prefix);
    var selected := doc[from..to];
    if selected != [] then
      Change(from, to, prefix + selected + after, from + |prefix| + |selected| + |after|)
    else
      Change(from, from, prefix + after, from + |prefix|)
  }

  /**
   * A non-empty selection is replaced by prefix, selection and suffix; the
   * caret goes after the suffix, and stripping the prefix and suffix lengths
   * from the inserted text recovers the selection.
   */
  lemma WrapRecoversSelection(doc: string, from: nat, to: nat, prefix: string, suffix: Option<string>)
    requires from < to <= |doc|
    ensures var c, after := WrapChange(doc, from, to, prefix, suffix), suffix.GetOr(prefix);
      c.from == from && c.to == to &&
      |c.insert| == |prefix| + (to - from) + |after| &&
      c.insert[..|prefix|] == prefix &&
      c.insert[|c.insert| - |after|..] == after &&
      c.insert[|prefix|..|c.insert| - |after|] == doc[from..to] &&
      c.caret == from + |c.insert|
  {
    var selected := doc[from..to];
    assert |selected| == to - from > 0;
    var after := suffix.GetOr(prefix);
    var ins := prefix + selected + after;
    assert ins[|prefix|..|ins| - |after|] == selected;
  }

  /**
   * A collapsed selection gets prefix and suffix inserted at the caret,
   * nothing is deleted, and the caret ends between the two markers.
   */
  lemma WrapCollapsedCaretBetween(doc: string, pos: nat, prefix: string, suffix: Option<string>)
    requires pos <= |doc|
    ensures var c, after := WrapChange(doc, pos, pos, prefix, suffix), suffix.GetOr(prefix);
      var d := Apply(doc, c);
      c.from == c.to == pos && c.insert == prefix + after &&
      c.caret == pos + |prefix| &&
      d[pos..c.caret] == prefix && d[c.caret..c.caret + |after|] == after &&
      d == doc[..pos] + prefix + after + doc[pos..]
  {
    var c, after := WrapChange(doc, pos, pos, prefix, suffix), suffix.GetOr(prefix);
    assert c == Change(pos, pos, prefix + after, pos + |prefix|);
    InsertPair(doc, pos, prefix, after);
  }

  /** Inserting two strings in a row at `pos` leaves each of them as a slice of the result. */
  lemma InsertPair(doc: string, pos: nat, a: string, b: string)
    requires pos <= |doc|
    ensures var d := Apply(doc, Change(pos, pos, a + b, pos + |a|));
      d[pos..pos + |a|] == a && d[pos + |a|..pos + |a| + |b|] == b &&
      d == doc[..pos] + a + b + doc[pos..]
  {
    var d := Apply(doc, Change(pos, pos, a + b, pos + |a|));
    assert d[pos..pos + |a|] == (a + b)[..|a|];
    assert d[pos + |a|..pos + |a| + |b|] == (a + b)[|a|..];
  }

  // ---------------------------------------------------------------------
  // insertHeading
  // ---------------------------------------------------------------------

  /** The text with its leading `'#'` characters removed. */
  function DropHashes(t: string): (r: string)
    ensures |r| <= |t| && r == t[|t| - |r|..]
    ensures r == [] || r[0] != '#'
    ensures forall i | 0 <= i < |t| - |r| :: t[i] == '#'
  {
    if t != [] && t[0] == '#' then DropHashes(t[1..]) else t
  }

  /** The line with a leading `^#+\s*` match removed: one or more `'#'` and the whitespace after them. */
  function StripHeadingMarker(t: string): (r: string)
    ensures |r| <= |t| && r == t[|t| - |r|..]
  {
    if t != [] && t[0] == '#' then TrimStartFacts(DropHashes(t)); TrimStart(DropHashes(t)) else t
  }

  /** The heading line of `insertHeading(level)`: `level` hashes, a space, the line without its old marker. */
  function HeadingLine(level: nat, t: string): string {
    Repeat("#", level) + " " + StripHeadingMarker(t)
  }

  /** `insertHeading(level)` rewrites the line at the selection start. */
  function HeadingChange(doc: string, from: nat, level: nat): (c: Change)
    requires from <= |doc|
    ensures Fits(doc, c)
  {
    LineChange(doc, from, HeadingLine(level, LineAt(doc, from).text))
  }

  lemma DropHashesOfHeading(level: nat, rest: string)
    ensures DropHashes(Repeat("#", level) + " " + rest) == " " + rest
  {
    if level > 0 {
      assert (Repeat("#", level) + " " + rest)[1..] == Repeat("#", level - 1) + " " + rest;
      DropHashesOfHeading(level - 1, rest);
    }
  }

  lemma TrimStartIdempotent(s: string)
    ensures TrimStart(TrimStart(s)) == TrimStart(s)
  {
    TrimStartFacts(s);
    TrimStartOfUnspaced(TrimStart(s));
  }

  /** Stripping the marker of a heading line written by `HeadingLine` gives its text minus leading whitespace. */
  lemma StripOfHeadingLine(level: nat, t: string)
    requires level >= 1
    ensures StripHeadingMarker(HeadingLine(level, t)) == TrimStart(StripHeadingMarker(t))
  {
    var clean := StripHeadingMarker(t);
    var h := HeadingLine(level, t);
    assert h[0] == '#' by {
      assert Repeat("#", level) == "#" + Repeat("#", level - 1);
    }
    DropHashesOfHeading(level, clean);
    assert StripHeadingMarker(h) == TrimStart(" " + clean);
    assert (" " + clean)[1..] == clean;
  }

  /**
   * Re-applying `insertHeading` (at any level) after `insertHeading(level)`
   * with `level >= 1` gives the same line as applying the second level
   * directly, exactly when the line does not start with whitespace; in
   * particular re-applying the same level changes nothing.
   */
  lemma HeadingReapply(level: nat, again: nat, t: string)
    requires level >= 1
    ensures (HeadingLine(again, HeadingLine(level, t)) == HeadingLine(again, t)) <==> (t == [] || !IsSpace(t[0]))
  {
    StripOfHeadingLine(level, t);
    var clean := StripHeadingMarker(t);
    if t == [] || !IsSpace(t[0]) {
      if t != [] && t[0] == '#' {
        TrimStartIdempotent(DropHashes(t));
      } else {
        TrimStartOfUnspaced(t);
      }
    } else {
      assert clean == t;
      TrimStartFacts(t);
      assert |TrimStart(t)| < |t|;
      assert |HeadingLine(again, HeadingLine(level, t))| < |HeadingLine(again, t)|;
    }
  }

  /** The case the idempotence law is usually quoted for: the same level twice. */
  lemma HeadingIdempotent(level: nat, t: string)
    requires level >= 1 && (t == [] || !IsSpace(t[0]))
    ensures HeadingLine(level, HeadingLine(level, t)) == HeadingLine(level, t)
  {
    HeadingReapply(level, level, t);
  }

  // ---------------------------------------------------------------------
  // insertList
  // ---------------------------------------------------------------------

  predicate IsBulletChar(c: char) {
    c == '-' || c == '*' || c == '+'
  }

  /** `/^[-*+]\s/` */
  predicate HasBulletMarker(s: string) {
    |s| >= 2 && IsBulletChar(s[0]) && IsSpace(s[1])
  }

  /** The number of leading decimal digits. */
  function DigitRun(s: string): (n: nat)
    ensures n <= |s|
    ensures forall i | 0 <= i < n :: IsDigit(s[i])
    ensures n == |s| || !IsDigit(s[n])
  {
    if s != [] && IsDigit(s[0]) then 1 + DigitRun(s[1..]) else 0
  }

  /** `/^\d+\.\s/` */
  predicate HasNumberMarker(s: string) {
    var n := DigitRun(s);
    n >= 1 && n + 2 <= |s| && s[n] == '.' && IsSpace(s[n + 1])
  }

  predicate HasListMarker(ordered: bool, s: string) {
    if ordered then HasNumberMarker(s) else HasBulletMarker(s)
  }

  /**
   * `insertList(ordered)` on a line: the trimmed line loses its marker
   * if it has one, and gets `"1. "` or `"- "` in front otherwise.
   */
  function ListLine(ordered: bool, t: string): string {
    var base := Trim(t);
    if ordered then
      (if HasNumberMarker(base) then base[DigitRun(base) + 2..] else "1. " + base)
    else
      (if HasBulletMarker(base) then base[2..] else "- " + base)
  }

  /** `insertList(ordered)` rewrites the line at the selection start. */
  function ListChange(doc: string, from: nat, ordered: bool): (c: Change)
    requires from <= |doc|
    ensures Fits(doc, c)
  {
    LineChange(doc, from, ListLine(ordered, LineAt(doc, from).text))
  }

  /**
   * Toggling a list twice restores a non-empty line that equals its own
   * trim and carries no marker of that kind.
   */
  lemma ListToggleTwice(ordered: bool, t: string)
    requires t != [] && Trim(t) == t && !HasListMarker(ordered, t)
    ensures ListLine(ordered, ListLine(ordered, t)) == t
  {
    var marker := if ordered then "1. " else "- ";
    var once := marker + t;
    assert ListLine(ordered, t) == once;
    TrimFacts(t);
    assert !IsSpace(t[|t| - 1]);
    assert once[|once| - 1] == t[|t| - 1];
    TrimOfTrimmed(once);
    if ordered {
      assert DigitRun(once[1..]) == 0;
      assert DigitRun(once) == 1;
      assert once[3..] == t;
    } else {
      assert once[2..] == t;
    }
  }

  /**
   * The empty line is where the toggle law breaks: the first toggle writes
   * just the marker, which trims to a marker without its space, so the
   * second toggle adds another marker instead of removing it.
   */
  lemma ListToggleEmptyLine()
    ensures ListLine(false, "") == "- " && ListLine(false, ListLine(false, "")) == "- -"
    ensures ListLine(true, "") == "1. " && ListLine(true, ListLine(true, "")) == "1. 1."
  {
    TrimOfTrimmed("");
    assert ListLine(false, "") == "- ";
    assert ListLine(true, "") == "1. ";
    TrimmedMarker("- ");
    TrimmedMarker("1. ");
    var bullet: string := "-";
    assert !HasBulletMarker(bullet);
    var number: string := "1.";
    assert |number| == 2;
    assert DigitRun(number[1..]) == 0;
    assert DigitRun(number) == 1;
    assert !HasNumberMarker(number);
    assert "- " + bullet == "- -";
    assert "1. " + number == "1. 1.";
  }

  /** A two- or three-character marker with its trailing space trims to the marker without the space. */
  lemma TrimmedMarker(m: string)
    requires 2 <= |m| && !IsSpace(m[0]) && !IsSpace(m[|m| - 2]) && m[|m| - 1] == ' '
    ensures Trim(m) == m[..|m| - 1]
  {
    TrimStartOfUnspaced(m);
    assert m[..|m| - 1][|m| - 2] == m[|m| - 2];
    TrimEndOfUnspaced(m[..|m| - 1]);
  }

  // ---------------------------------------------------------------------
  // insertQuote
  // ---------------------------------------------------------------------

  /** `insertQuote` on a line: remove exactly `"> "` if it is there, else put it in front. */
  function QuoteLine(t: string): string {
    if StartsWith(t, "> ") then t[2..] else "> " + t
  }

  /** `insertQuote` rewrites the line at the selection start. */
  function QuoteChange(doc: string, from: nat): (c: Change)
    requires from <= |doc|
    ensures Fits(doc, c)
  {
    LineChange(doc, from, QuoteLine(LineAt(doc, from).text))
  }

  /** Quoting twice restores the line exactly when it does not start with two quote markers. */
  lemma QuoteTwice(t: string)
    ensures QuoteLine(QuoteLine(t)) == t <==> !StartsWith(t, "> > ")
  {
    if StartsWith(t, "> ") {
      if |t| >= 4 {
        assert t[..4] == t[..2] + t[2..][..2];
      }
      assert StartsWith(t, "> > ") <==> StartsWith(t[2..], "> ");
      if !StartsWith(t[2..], "> ") {
        assert "> " + t[2..] == t;
      }
    } else {
      assert ("> " + t)[2..] == t;
      assert !StartsWith(t, "> > ");
    }
  }

  // ---------------------------------------------------------------------
  // insertTaskList
  // ---------------------------------------------------------------------

  /** `/^- \[[ x]\] /` */
  predicate HasTaskMarker(s: string) {
    StartsWith(s, "- [ ] ") || StartsWith(s, "- [x] ")
  }

  /** `/^[-*+] /` */
  predicate HasPlainBullet(s: string) {
    |s| >= 2 && IsBulletChar(s[0]) && s[1] == ' '
  }

  /**
   * `insertTaskList` on a line: a task marker is removed, a plain bullet
   * becomes an unchecked task, anything else gets an unchecked task marker.
   */
  function TaskLine(t: string): string {
    if HasTaskMarker(t) then t[6..]
    else if HasPlainBullet(t) then "- [ ] " + t[2..]
    else "- [ ] " + t
  }

  /** `insertTaskList` rewrites the line at the selection start. */
  function TaskChange(doc: string, from: nat): (c: Change)
    requires from <= |doc|
    ensures Fits(doc, c)
  {
    LineChange(doc, from, TaskLine(LineAt(doc, from).text))
  }

  /** On a line without a bullet, the task toggle is an involution. */
  lemma TaskToggleTwice(t: string)
    requires !HasPlainBullet(t)
    ensures TaskLine(t) == "- [ ] " + t
    ensures TaskLine(TaskLine(t)) == t
  {
    assert !HasTaskMarker(t);
    assert StartsWith("- [ ] " + t, "- [ ] ");
    assert ("- [ ] " + t)[6..] == t;
  }

  /**
   * A plain bullet item cycles: it becomes a task, then plain text, and a
   * third toggle gives the task again.
   */
  lemma TaskCycle(t: string)
    requires HasPlainBullet(t) && !HasTaskMarker(t) && !HasPlainBullet(t[2..])
    ensures TaskLine(t) == "- [ ] " + t[2..]
    ensures TaskLine(TaskLine(t)) == t[2..]
    ensures TaskLine(TaskLine(TaskLine(t))) == TaskLine(t)
  {
    TaskToggleTwice(t[2..]);
  }

  /** The documented example: `"- item"`, `"- [ ] item"`, `"item"`, `"- [ ] item"`. */
  lemma TaskCycleExample()
    ensures TaskLine("- item") == "- [ ] item"
    ensures TaskLine("- [ ] item") == "item"
    ensures TaskLine("item") == "- [ ] item"
  {
    var t: string := "- item";
    assert t[2] == 'i';
    assert !HasTaskMarker(t) by {
      assert t[..6] != "- [ ] " && t[..6] != "- [x] ";
    }
    assert t[2..] == "item";
    assert !HasPlainBullet(t[2..]);
    TaskCycle(t);
  }

  // ---------------------------------------------------------------------
  // insertTable
  // ---------------------------------------------------------------------

  const HeaderCell := " Header |"
  const SeparatorCell := " ------ |"
  const DataCell := " Cell   |"

  /** A table row without its line break: a `'|'` then `cols` cells of nine characters. */
  function RowText(cell: string, cols: nat): (r: string)
    requires |cell| == 9 && '\n' !in cell
    ensures '\n' !in r
  {
    RepeatAvoids(cell, cols, '\n');
    "|" + Repeat(cell, cols)
  }

  /** The number of data rows: `rows - 1` iterations of the loop, none when `rows < 1`. */
  function DataRows(rows: int): nat {
    if rows - 1 > 0 then rows - 1 else 0
  }

  /** The block `insertTable(rows, cols)` inserts: a blank line, header, separator, data rows, a blank line. */
  function TableText(rows: int, cols: nat): string {
    "\n" + RowText(HeaderCell, cols) + "\n" + RowText(SeparatorCell, cols) + "\n"
      + Repeat(RowText(DataCell, cols) + "\n", DataRows(rows)) + "\n"
  }

  /** Builds the table text the way the toolbar does, one `+=` per row. */
  method BuildTable(rows: int, cols: nat) returns (table: string)
    ensures table == TableText(rows, cols)
  {
    var dataRow := RowText(DataCell, cols) + "\n";
    table := "\n";
    table := table + RowText(HeaderCell, cols) + "\n";
    table := table + RowText(SeparatorCell, cols) + "\n";
    var i := 0;
    while i < rows - 1
      invariant 0 <= i <= DataRows(rows)
      invariant table == "\n" + RowText(HeaderCell, cols) + "\n" + RowText(SeparatorCell, cols) + "\n" + Repeat(dataRow, i)
    {
      RepeatSnoc(dataRow, i);
      table := table + dataRow;
      i := i + 1;
    }
    table := table + "\n";
  }

  /** `insertTable(rows, cols)` inserts the table at the selection start and deletes nothing. */
  function TableChange(from: nat, rows: int, cols: nat): (c: Change)
    ensures c.from == c.to == from && c.caret == from + |c.insert|
  {
    var table := TableText(rows, cols);
    Change(from, from, table, from + |table|)
  }

  /** `n` copies of `x` in a row. */
  function Copies(x: string, n: nat): seq<string>
  {
    if n == 0 then [] else [x] + Copies(x, n - 1)
  }

  lemma SplitAfterLine(a: string, rest: string)
    requires '\n' !in a
    ensures Split(a + "\n" + rest, '\n') == [a] + Split(rest, '\n')
  {
    SplitAfterPiece(a, '\n', rest);
  }

  lemma {:induction false} SplitRepeatedRows(row: string, n: nat, rest: string)
    requires '\n' !in row
    ensures Split(Repeat(row + "\n", n) + rest, '\n') == Copies(row, n) + Split(rest, '\n')
  {
    if n > 0 {
      var line := row + "\n";
      var more := Repeat(line, n - 1) + rest;
      assert Repeat(line, n) + rest == line + more;
      SplitAfterLine(row, more);
      SplitRepeatedRows(row, n - 1, rest);
      assert Copies(row, n) + Split(rest, '\n') == [row] + (Copies(row, n - 1) + Split(rest, '\n'));
    } else {
      assert Repeat(row + "\n", n) + rest == rest;
    }
  }

  /** A lone line break splits into two empty pieces. */
  lemma SplitLineBreak()
    ensures Split("\n", '\n') == ["", ""]
  {
    SplitAfterLine("", "");
    assert "" + "\n" + "" == "\n";
  }

  /** The three lines in front of the data rows. */
  lemma SplitTableHead(h: string, s: string, body: string)
    requires '\n' !in h && '\n' !in s
    ensures Split("\n" + h + "\n" + s + "\n" + body, '\n') == ["", h, s] + Split(body, '\n')
  {
    var t2 := s + "\n" + body;
    var t1 := h + "\n" + t2;
    assert "\n" + h + "\n" + s + "\n" + body == "" + "\n" + t1;
    SplitAfterLine("", t1);
    SplitAfterLine(h, t2);
    SplitAfterLine(s, body);
  }

  /**
   * The lines of the inserted table: an empty line, the header row, the
   * separator row, one data row per `rows - 1`, then two empty pieces
   * (the blank line and whatever follows it), each row having `cols`
   * nine-character cells after its leading `'|'`.
   */
  lemma TableLines(rows: int, cols: nat)
    ensures Split(TableText(rows, cols), '\n') ==
      ["", RowText(HeaderCell, cols), RowText(SeparatorCell, cols)]
      + Copies(RowText(DataCell, cols), DataRows(rows)) + ["", ""]
  {
    var h, s, d := RowText(HeaderCell, cols), RowText(SeparatorCell, cols), RowText(DataCell, cols);
    var body := Repeat(d + "\n", DataRows(rows)) + "\n";
    assert TableText(rows, cols) == "\n" + h + "\n" + s + "\n" + body;
    SplitTableHead(h, s, body);
    SplitLineBreak();
    SplitRepeatedRows(d, DataRows(rows), "\n");
  }

  /** A row built from cells holding one `'|'` each has `cols + 1` of them, its leading one included. */
  lemma RowDelimiters(cell: string, cols: nat)
    requires |cell| == 9 && '\n' !in cell && CountChar(cell, '|') == 1
    ensures CountChar(RowText(cell, cols), '|') == cols + 1
  {
    CountRepeated(cell, cols);
    CountCharAppend("|", Repeat(cell, cols), '|');
  }

  /** The three cell texts each close with the row's only kind of delimiter. */
  lemma CellsHaveOneDelimiter()
    ensures CountChar(HeaderCell, '|') == 1
    ensures CountChar(SeparatorCell, '|') == 1
    ensures CountChar(DataCell, '|') == 1
  {
    HeaderCellDelimiter();
    SeparatorCellDelimiter();
    DataCellDelimiter();
  }

  lemma HeaderCellDelimiter()
    ensures CountChar(HeaderCell, '|') == 1
  {
    OneDelimiter(" Header ");
    assert HeaderCell == " Header " + "|";
  }

  lemma SeparatorCellDelimiter()
    ensures CountChar(SeparatorCell, '|') == 1
  {
    OneDelimiter(" ------ ");
    assert SeparatorCell == " ------ " + "|";
  }

  lemma DataCellDelimiter()
    ensures CountChar(DataCell, '|') == 1
  {
    OneDelimiter(" Cell   ");
    assert DataCell == " Cell   " + "|";
  }

  lemma OneDelimiter(body: string)
    requires '|' !in body
    ensures CountChar(body + "|", '|') == 1
  {
    CountCharAbsent(body, '|');
    CountCharAppend(body, "|", '|');
  }

  /** The block is `2 + DataRows(rows)` rows of `9 * cols + 2` characters between two line breaks. */
  lemma TableLength(rows: int, cols: nat)
    ensures |TableText(rows, cols)| == 2 + (2 + DataRows(rows)) * (9 * cols + 2)
  {
    RepeatLength(HeaderCell, cols);
    RepeatLength(SeparatorCell, cols);
    RepeatLength(DataCell, cols);
    var d := RowText(DataCell, cols) + "\n";
    RepeatLength(d, DataRows(rows));
    assert |d| == 9 * cols + 2;
  }

  lemma {:induction false} CountRepeated(cell: string, n: nat)
    ensures CountChar(Repeat(cell, n), '|') == n * CountChar(cell, '|')
  {
    if n > 0 {
      CountCharAppend(cell, Repeat(cell, n - 1), '|');
      CountRepeated(cell, n - 1);
      var c := CountChar(cell, '|');
      assert n * c == (n - 1) * c + c;
    }
  }

  /** With the default 3 x 3: header, separator and two data rows, each with three cells. */
  lemma DefaultTable()
    ensures Split(TableText(3, 3), '\n') ==
      ["", "| Header | Header | Header |", "| ------ | ------ | ------ |",
       "| Cell   | Cell   | Cell   |", "| Cell   | Cell   | Cell   |", "", ""]
  {
    DefaultRows();
    TableOfRows("| Header | Header | Header |", "| ------ | ------ | ------ |", "| Cell   | Cell   | Cell   |");
  }

  /** The default table's lines in terms of its three row texts. */
  lemma TableOfRows(h: string, s: string, d: string)
    requires h == RowText(HeaderCell, 3) && s == RowText(SeparatorCell, 3) && d == RowText(DataCell, 3)
    ensures Split(TableText(3, 3), '\n') == ["", h, s, d, d, "", ""]
  {
    assert DataRows(3) == 2;
    assert Copies(d, 1) == [d];
    assert Copies(d, DataRows(3)) == [d, d];
    TableLines(3, 3);
  }

  lemma DefaultRows()
    ensures RowText(HeaderCell, 3) == "| Header | Header | Header |"
    ensures RowText(SeparatorCell, 3) == "| ------ | ------ | ------ |"
    ensures RowText(DataCell, 3) == "| Cell   | Cell   | Cell   |"
  {
    DefaultHeaderRow();
    DefaultSeparatorRow();
    DefaultDataRow();
  }

  lemma DefaultHeaderRow()
    ensures RowText(HeaderCell, 3) == "| Header | Header | Header |"
  {
    ThreeCells(HeaderCell);
  }

  lemma DefaultSeparatorRow()
    ensures RowText(SeparatorCell, 3) == "| ------ | ------ | ------ |"
  {
    ThreeCells(SeparatorCell);
  }

  lemma DefaultDataRow()
    ensures RowText(DataCell, 3) == "| Cell   | Cell   | Cell   |"
  {
    ThreeCells(DataCell);
  }

  lemma ThreeCells(cell: string)
    ensures Repeat(cell, 3) == cell + cell + cell
  {
    assert Repeat(cell, 1) == cell;
  }

  // ---------------------------------------------------------------------
  // insertLink, insertImage, insertCodeBlock, insertHorizontalRule
  // ---------------------------------------------------------------------

  /** JavaScript's `a || b` on strings: `b` when `a` is empty or absent. */
  function OrElse(a: string, b: string): string {
    if a != [] then a else b
  }

  /** `insertLink(text?, url?)`: an absent argument is passed as the empty string, which `||` treats alike. */
  function LinkMarkdown(text: string, selected: string, url: string): (r: string)
    ensures StartsWith(r, "[") && EndsWith(r, ")")
  {
    "[" + OrElse(text, OrElse(selected, "链接文本")) + "](" + OrElse(url, "https://") + ")"
  }

  /** `insertLink` replaces the selection by the link. */
  function LinkChange(doc: string, from: nat, to: nat, text: string, url: string): (c: Change)
    requires from <= to <= |doc|
    ensures Fits(doc, c)
    ensures c.from == from && c.to == to && c.caret == from + |c.insert|
  {
    var md := LinkMarkdown(text, doc[from..to], url);
    Change(from, to, md, from + |md|)
  }

  /** A selected `"click here"` becomes `[click here](https://)` with no arguments. */
  lemma LinkFromSelection(doc: string, from: nat, to: nat)
    requires from <= to <= |doc| && doc[from..to] == "click here"
    ensures LinkChange(doc, from, to, "", "").insert == "[click here](https://)"
  {
    assert OrElse("", OrElse("click here", "链接文本")) == "click here";
    assert OrElse("", "https://") == "https://";
  }

  /** An explicit text takes precedence over the selection, the selection over the placeholder. */
  lemma LinkTextPrecedence(text: string, selected: string, url: string)
    ensures text != [] ==> LinkMarkdown(text, selected, url) == "[" + text + "](" + OrElse(url, "https://") + ")"
    ensures text == [] && selected != [] ==> LinkMarkdown(text, selected, url) == "[" + selected + "](" + OrElse(url, "https://") + ")"
    ensures text == [] && selected == [] && url == [] ==> LinkMarkdown(text, selected, url) == "[链接文本](https://)"
  {
  }

  /** `insertImage(alt?, url?)`: the alt text never falls back to the selection. */
  function ImageMarkdown(alt: string, url: string): (r: string)
    ensures StartsWith(r, "![") && EndsWith(r, ")")
  {
    "![" + OrElse(alt, "图片描述") + "](" + OrElse(url, "image.png") + ")"
  }

  /** `insertImage` inserts at the selection start and keeps the selected text. */
  function ImageChange(from: nat, alt: string, url: string): (c: Change)
    ensures c.from == c.to == from && c.caret == from + |c.insert|
  {
    var md := ImageMarkdown(alt, url);
    Change(from, from, md, from + |md|)
  }

  /** `insertImage("diagram")` writes `![diagram](image.png)`. */
  lemma ImageExample(from: nat)
    ensures ImageChange(from, "diagram", "").insert == "![diagram](image.png)"
  {
  }

  /** `insertCodeBlock(language)`: a fenced block around the selection, or a placeholder comment. */
  function CodeBlockText(language: string, selected: string): (r: string)
    ensures StartsWith(r, "\n```" + language + "\n") && EndsWith(r, "\n```\n")
  {
    var r := "\n```" + language + "\n" + OrElse(selected, "// 代码") + "\n```\n";
    assert r[..|language| + 5] == "\n```" + language + "\n";
    r
  }

  /** `insertCodeBlock` replaces the selection; the caret goes to the start of the code line. */
  function CodeBlockChange(doc: string, from: nat, to: nat, language: string): (c: Change)
    requires from <= to <= |doc|
    ensures Fits(doc, c)
    ensures c.from == from && c.to == to && c.caret == from + 5 + |language|
  {
    Change(from, to, CodeBlockText(language, doc[from..to]), from + 4 + |language| + 1)
  }

  /** The text before the new caret is exactly the opening fence with its language; the code follows it. */
  lemma CodeBlockCaret(doc: string, from: nat, to: nat, language: string)
    requires from <= to <= |doc|
    ensures var c := CodeBlockChange(doc, from, to, language);
      var d := Apply(doc, c);
      d[from..c.caret] == "\n```" + language + "\n" &&
      StartsWith(d[c.caret..], OrElse(doc[from..to], "// 代码") + "\n```\n")
  {
    var c := CodeBlockChange(doc, from, to, language);
    var d := Apply(doc, c);
    var body := OrElse(doc[from..to], "// 代码") + "\n```\n";
    assert c.insert == "\n```" + language + "\n" + body;
    assert d[from..from + |c.insert|] == c.insert;
    assert d[from..c.caret] == c.insert[..5 + |language|];
    assert d[c.caret..][..|body|] == c.insert[5 + |language|..];
  }

  /** `insertCodeBlock("ts")` on an empty selection: the placeholder inside a `ts` fence. */
  lemma CodeBlockExample(doc: string, pos: nat)
    requires pos <= |doc|
    ensures CodeBlockChange(doc, pos, pos, "ts").insert == "\n```ts\n// 代码\n```\n"
  {
  }

  const HorizontalRule := "\n\n---\n\n"

  /** `insertHorizontalRule` inserts the rule after the end of the selection's line. */
  function HorizontalRuleChange(doc: string, from: nat): (c: Change)
    requires from <= |doc|
    ensures Fits(doc, c)
    ensures c.from == c.to && c.caret == c.from + 6
  {
    var l := LineAt(doc, from);
    Change(l.to, l.to, HorizontalRule, l.to + 6)
  }

  /**
   * The rule goes after the whole line whatever the caret's column, nothing
   * is deleted, and the caret lands on the empty line after `---`.
   */
  lemma HorizontalRulePlacement(doc: string, from: nat)
    requires from <= |doc|
    ensures var l, c := LineAt(doc, from), HorizontalRuleChange(doc, from);
      var d := Apply(doc, c);
      c.from == l.to && d == doc[..l.to] + "\n\n---\n\n" + doc[l.to..] &&
      d[l.to..c.caret] == "\n\n---\n" && d[c.caret] == '\n'
  {
    var l, c := LineAt(doc, from), HorizontalRuleChange(doc, from);
    var d := Apply(doc, c);
    assert d[l.to..l.to + 7] == HorizontalRule;
    assert d[l.to..c.caret] == HorizontalRule[..6];
    assert d[c.caret] == HorizontalRule[6];
  }

  // ---------------------------------------------------------------------
  // The editor
  // ---------------------------------------------------------------------

  /**
   * The editor state the commands work on: the document and the main
   * selection (`anchor`, `head`), plus the dispatches issued so far and
   * whether the editor holds the input focus.
   */
  class Editor {
    var doc: string
    var anchor: nat
    var head: nat
    var focused: bool
    ghost var dispatches: nat

    ghost predicate Valid()
      reads this
    {
      anchor <= |doc| && head <= |doc|
    }

    /** The start of the main selection. */
    function From(): nat
      reads this
    {
      if anchor <= head then anchor else head
    }

    /** The end of the main selection. */
    function To(): nat
      reads this
    {
      if anchor <= head then head else anchor
    }

    /** The state after `c` was applied to `before`: new text and a collapsed caret at `c.caret`. */
    ghost predicate Shows(before: string, c: Change)
      reads this
    {
      Fits(before, c) && doc == Apply(before, c) && anchor == c.caret && head == c.caret
    }

    constructor (text: string, anchor: nat, head: nat)
      requires anchor <= |text| && head <= |text|
      ensures Valid() && doc == text && this.anchor == anchor && this.head == head
      ensures dispatches == 0 && !focused
    {
      doc := text;
      this.anchor := anchor;
      this.head := head;
      focused := false;
      dispatches := 0;
    }

    /** The host's one atomic edit: replace a range and set the caret, as a single undo step. */
    method Dispatch(c: Change)
      requires Valid() && Fits(doc, c)
      modifies this
      ensures Valid() && Shows(old(doc), c)
      ensures dispatches == old(dispatches) + 1 && focused == old(focused)
    {
      doc := doc[..c.from] + c.insert + doc[c.to..];
      anchor, head := c.caret, c.caret;
      dispatches := dispatches + 1;
    }

    /** The host's `focus()`: gives the editor the input focus and changes nothing else. */
    method Focus()
      modifies this`focused
      ensures focused
    {
      focused := true;
    }

    /** What every command ends with: one dispatch of its change, then `focus()`. */
    method DispatchAndFocus(c: Change)
      requires Valid() && Fits(doc, c)
      modifies this
      ensures Valid() && Shows(old(doc), c)
      ensures dispatches == old(dispatches) + 1 && focused
    {
      ghost var before := doc;
      Dispatch(c);
      assert Shows(before, c);
      Focus();
      assert Shows(before, c);
    }

    /** `wrapSelection(prefix, suffix?)` */
    method WrapSelection(prefix: string, suffix: Option<string>)
      requires Valid()
      modifies this
      ensures Valid() && focused && dispatches == old(dispatches) + 1
      ensures Shows(old(doc), WrapChange(old(doc), old(From()), old(To()), prefix, suffix))
    {
      DispatchAndFocus(WrapChange(doc, From(), To(), prefix, suffix));
    }

    /** `insertHeading(level)` */
    method InsertHeading(level: nat)
      requires Valid()
      modifies this
      ensures Valid() && focused && dispatches == old(dispatches) + 1
      ensures Shows(old(doc), HeadingChange(old(doc), old(From()), level))
    {
      DispatchAndFocus(HeadingChange(doc, From(), level));
    }

    /** `insertList(ordered)` */
    method InsertList(ordered: bool)
      requires Valid()
      modifies this
      ensures Valid() && focused && dispatches == old(dispatches) + 1
      ensures Shows(old(doc), ListChange(old(doc), old(From()), ordered))
    {
      DispatchAndFocus(ListChange(doc, From(), ordered));
    }

    /** `insertTable(rows = 3, cols = 3)` */
    method InsertTable(rows: int, cols: nat)
      requires Valid()
      modifies this
      ensures Valid() && focused && dispatches == old(dispatches) + 1
      ensures Shows(old(doc), TableChange(old(From()), rows, cols))
    {
      var table := BuildTable(rows, cols);
      var from := From();
      DispatchAndFocus(Change(from, from, table, from + |table|));
    }

    /** `insertLink(text?, url?)` */
    method InsertLink(text: string, url: string)
      requires Valid()
      modifies this
      ensures Valid() && focused && dispatches == old(dispatches) + 1
      ensures Shows(old(doc), LinkChange(old(doc), old(From()), old(To()), text, url))
    {
      DispatchAndFocus(LinkChange(doc, From(), To(), text, url));
    }

    /** `insertImage(alt?, url?)` */
    method InsertImage(alt: string, url: string)
      requires Valid()
      modifies this
      ensures Valid() && focused && dispatches == old(dispatches) + 1
      ensures Shows(old(doc), ImageChange(old(From()), alt, url))
    {
      DispatchAndFocus(ImageChange(From(), alt, url));
    }

    /** `insertCodeBlock(language = '')` */
    method InsertCodeBlock(language: string)
      requires Valid()
      modifies this
      ensures Valid() && focused && dispatches == old(dispatches) + 1
      ensures Shows(old(doc), CodeBlockChange(old(doc), old(From()), old(To()), language))
    {
      DispatchAndFocus(CodeBlockChange(doc, From(), To(), language));
    }

    /** `insertQuote()` */
    method InsertQuote()
      requires Valid()
      modifies this
      ensures Valid() && focused && dispatches == old(dispatches) + 1
      ensures Shows(old(doc), QuoteChange(old(doc), old(From())))
    {
      DispatchAndFocus(QuoteChange(doc, From()));
    }

    /** `insertHorizontalRule()` */
    method InsertHorizontalRule()
      requires Valid()
      modifies this
      ensures Valid() && focused && dispatches == old(dispatches) + 1
      ensures Shows(old(doc), HorizontalRuleChange(old(doc), old(From())))
    {
      DispatchAndFocus(HorizontalRuleChange(doc, From()));
    }

    /** `insertTaskList()` */
    method InsertTaskList()
      requires Valid()
      modifies this
      ensures Valid() && focused && dispatches == old(dispatches) + 1
      ensures Shows(old(doc), TaskChange(old(doc), old(From())))
    {
      DispatchAndFocus(TaskChange(doc, From()));
    }
  }

  /**
   * What a caller can rely on from the contracts alone: quoting the line at
   * the start of the selection twice in a row restores the document, when
   * the line does not already start with two quote markers. The first
   * toggle collapses the selection onto that line, so the second toggles
   * the same line.
   */
  method QuoteTwiceRestoresDocument(e: Editor)
    requires e.Valid()
    requires !StartsWith(LineAt(e.doc, e.From()).text, "> > ")
    modifies e
    ensures e.doc == old(e.doc)
  {
    ghost var before, p := e.doc, e.From();
    ghost var l := LineAt(before, p);
    e.InsertQuote();
    LineChangeLands(before, p, QuoteLine(l.text));
    e.InsertQuote();
    QuoteTwice(l.text);
    ghost var mid := before[..l.from] + QuoteLine(l.text) + before[l.to..];
    assert e.doc == mid[..l.from] + l.text + mid[l.from + |QuoteLine(l.text)|..];
    assert l.text == before[l.from..l.to];
    PutBack(before, l.from, l.to, QuoteLine(l.text));
  }

  /** Replacing `s[from..to]` by `t` and then `t` by the old slice gives `s` back. */
  lemma PutBack(s: string, from: nat, to: nat, t: string)
    requires from <= to <= |s|
    ensures var m := s[..from] + t + s[to..];
      m[..from] + s[from..to] + m[from + |t|..] == s
  {
    var m := s[..from] + t + s[to..];
    assert m[..from] == s[..from];
    assert m[from + |t|..] == s[to..];
    assert s == s[..from] + s[from..to] + s[to..];
  }
}
