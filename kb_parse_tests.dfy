/** The examples of the unit tests of the knowledge-base scanner, and a few more. */
module KnowledgeBaseParseTests {
  import opened Text
  import opened Wrappers
  import opened KnowledgeBaseParse

  /** The examples of the unit test of `parse_heading`. */
  lemma ParseHeadingExamples()
    ensures ParseHeading("# Title") == Some(Heading(1, "Title"))
    ensures ParseHeading("## Section") == Some(Heading(2, "Section"))
    ensures ParseHeading("No heading") == None
  {
    TitleExample();
    SectionExample();
    PlainExample();
  }

  lemma TitleExample()
    ensures ParseHeading("# Title") == Some(Heading(1, "Title"))
  {
    var line: string := "# Title";
    var rest: string := " Title";
    assert line[1..] == rest && rest[1..] == "Title";
    Marked(line, 1, rest, "Title");
  }

  lemma SectionExample()
    ensures ParseHeading("## Section") == Some(Heading(2, "Section"))
  {
    var line: string := "## Section";
    var rest: string := " Section";
    assert line[2..] == rest && rest[1..] == "Section";
    Marked(line, 2, rest, "Section");
  }

  /** A line of `n` hashes, then a space and a text without whitespace at either end. */
  lemma Marked(line: string, n: nat, rest: string, text: string)
    requires 1 <= n <= 6 && n < |line| && line[0] != ' ' && HashRun(line, n)
    requires line[n..] == rest && rest[0] == ' ' && rest[1..] == text
    requires text != [] && !IsSpace(text[0]) && !IsSpace(text[|text| - 1])
    ensures ParseHeading(line) == Some(Heading(n, text))
  {
    TrimStartOfUnspaced(line);
    HashRunIs(line, n);
    TrimStartOfUnspaced(text);
    TrimEndOfUnspaced(text);
    assert TrimStart(rest) == text;
    assert Trim(rest) == text;
  }

  lemma PlainExample()
    ensures ParseHeading("No heading") == None
  {
    var plain: string := "No heading";
    TrimStartOfUnspaced(plain);
    assert HashCount(plain) == 0;
  }

  /** Seven or more hashes, or a heading with no text, are not headings. */
  lemma ParseHeadingRejects()
    ensures ParseHeading("####### deep") == None
    ensures ParseHeading("###   ") == None
  {
    TooDeep();
    NoText();
  }

  lemma TooDeep()
    ensures ParseHeading("####### deep") == None
  {
    var deep: string := "####### deep";
    TrimStartOfUnspaced(deep);
    assert HashRun(deep, 7);
    HashRunIs(deep, 7);
  }

  lemma NoText()
    ensures ParseHeading("###   ") == None
  {
    var empty: string := "###   ";
    TrimStartOfUnspaced(empty);
    assert HashRun(empty, 3);
    HashRunIs(empty, 3);
    assert Blank(empty[3..]);
    TrimEmptyIffBlank(empty[3..]);
  }

  /** Four lines: text, a separator, a blank line, text. */
  const Sample: seq<string> := ["a", "---", "", "b"]

  /**
   * A `---` line closes the chunk it ends, a blank line stays inside a
   * chunk, and the last line closes the last chunk.
   */
  lemma ChunksExample()
    ensures Chunks(Sample) == [Chunk("a\n---", 0, 1, []), Chunk("b", 2, 3, [])]
  {
    var lines := Sample;
    var marks := Marks(lines);
    SampleMarks();
    assert PathTo(marks, 1) == [] && PathTo(marks, 2) == [];
    assert PathTo(marks, 3) == [] && PathTo(marks, 4) == [];
    SampleBlocks();
    TrimSmall();
    assert !Closer(marks, lines, 0, 0) && Closer(marks, lines, 0, 1);
    assert !Closer(marks, lines, 2, 2) && Closer(marks, lines, 2, 3);
    assert Emit(marks, lines, 0, 1) == [Chunk("a\n---", 0, 1, [])];
    assert Emit(marks, lines, 2, 3) == [Chunk("b", 2, 3, [])];
    assert ChunksFrom(marks, lines, 4, 4) == [];
    assert ChunksFrom(marks, lines, 2, 2) == ChunksFrom(marks, lines, 2, 3) == Emit(marks, lines, 2, 3);
    assert ChunksFrom(marks, lines, 0, 0) == ChunksFrom(marks, lines, 0, 1);
  }

  lemma SampleMarks()
    ensures Marks(Sample) == [None, None, None, None]
  {
    var marks := Marks(Sample);
    forall i | 0 <= i < 4 ensures marks[i] == None {
      MarkAt(Sample, i);
      PlainLine(Sample[i]);
    }
  }

  lemma SampleBlocks()
    ensures Block(Sample, 0, 2) == "a\n---\n" && Block(Sample, 2, 4) == "\nb\n"
    ensures Fits(Sample, 0, 0) && !Fits(Sample, 0, 1) && Fits(Sample, 2, 2)
  {
    assert Block(Sample, 0, 1) == "a\n";
    assert Block(Sample, 2, 3) == "\n";
  }

  lemma TrimSmall()
    ensures Trim("a\n---\n") == "a\n---" && Trim("\nb\n") == "b"
  {
    var s: string := "a\n---\n";
    TrimStartOfUnspaced(s);
    assert s[..5] == "a\n---";
    var t: string := "\nb\n";
    assert TrimStart(t) == t[1..];
    assert t[1..] == "b\n";
  }

  lemma PlainLine(line: string)
    requires line == [] || (!IsSpace(line[0]) && line[0] != '#')
    ensures ParseHeading(line) == None
  {
    TrimStartOfUnspaced(line);
  }
}
