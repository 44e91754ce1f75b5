# bun-notebook core, modelled in Dafny

bun-notebook is a desktop Markdown notebook: a Vue front end (CodeMirror
editor, Pinia stores) over a Tauri/Rust back end, with a few Bun scripts
for versioning and git. This project models the part of it that computes
something and proves what that computation promises.

- **Markdown toolbar commands** (`src/utils/markdownOperations.ts`). The
  editor is the class `MarkdownOps.Editor`, holding the document, the main
  selection, a dispatch counter and a focus flag. Each toolbar command
  computes one `Change` (a replaced range, the inserted text and the new
  caret), dispatches it once and focuses the editor. The text a command
  inserts is a function, and its laws are lemmas: toggling twice, heading
  re-application, the exact table layout, and where the caret lands.
- **Knowledge-base service** (`knowledge_base_service.rs`):
  - `parse_heading`;
  - the line scanner `parse_markdown`, written as a method with a loop over
    the lines and proved to return exactly the chunks of a recursive
    definition stated without the scanner (`Chunks`), whose chunks are
    proved good, ordered and covering;
  - the title and metadata of an import;
  - the bookkeeping of `StorageData`, a class whose methods create,
    delete, import and delete documents. The invariant "every knowledge
    base counts exactly its documents" is proved preserved.
- **Recent-projects list** (`history_service.rs`): a class over the stored
  file, with the move-to-front list of at most 10 entries.
- **Pinia stores** `navigation.ts` (tabs) and `layout.ts` (clamped sizes
  and toggles), as classes whose actions are specified by functions on the
  state.
- **File-type table and its lookups** (`fileTypes.ts`,
  `fileTypeDetector.ts`, `fileIcons.ts`), as pure functions.
- **Directory walks and search** of `commands.rs` and `commands/fs.rs`, as
  methods over an in-memory file system: a directory listing, unreadable
  directories and files, and broken listing entries. Each walk method is
  proved equal to a recursive function. The functions are proved sorted
  (directories first, then case-insensitive names), free of ignored names
  and depth-bounded. The two walks' depth rules are related by a lemma.
- **`export_markdown`'s format dispatch.**
- **The upgrade, tag and commit scripts**: version parse and bump (with
  "today" as a parameter), the `version.json` update, tag naming, and the
  commit-message choice of `mygit.ts` (with git's output as a parameter).

Strings are `seq<char>`. JavaScript's and Rust's `trim`, `toLowerCase` and
`\s` are modelled on ASCII whitespace and ASCII letters (module `Text`).

## Model

| member | source | states |
|---|---|---|
| MarkdownOps.LineAt | src/utils/markdownOperations.ts:48-50 | the line around an offset: it contains the offset, runs from a line start to a line end, and holds no line break; `LineAtUnique` shows any such line is this one |
| MarkdownOps.LineAtUnique | src/utils/markdownOperations.ts:49 | a range that starts after a break, ends before one and contains the offset is the line `lineAt` returns |
| MarkdownOps.Apply | src/utils/markdownOperations.ts:16-21 | applying a change keeps the text before `from`, places the insert, keeps the text after `to`, and has the resulting length |
| MarkdownOps.LineChangeLands | src/utils/markdownOperations.ts:56-64 | rewriting the caret's line replaces exactly that line; the caret is at the end of the new line, and the line around the caret then is the new line |
| MarkdownOps.WrapRecoversSelection | src/utils/markdownOperations.ts:14-25 | with a selection, the insert is prefix, selection, suffix (the suffix defaulting to the prefix); removing both recovers the selection; the caret ends after the insert |
| MarkdownOps.WrapCollapsedCaretBetween | src/utils/markdownOperations.ts:26-36 | with no selection, prefix and suffix are inserted without deleting anything, and the caret sits between them |
| MarkdownOps.DropHashes | src/utils/markdownOperations.ts:53 | removes the longest run of leading `#`: what is left does not start with `#` |
| MarkdownOps.StripOfHeadingLine | src/utils/markdownOperations.ts:53-54 | stripping the marker of a rewritten heading line gives the old text stripped and then left-trimmed |
| MarkdownOps.HeadingReapply | src/utils/markdownOperations.ts:53-60 | re-applying any level to a heading line of level at least 1 equals applying it to the original line, exactly when the line does not start with whitespace |
| MarkdownOps.HeadingIdempotent | src/utils/markdownOperations.ts:53-60 | applying the same heading level twice gives the same line when the line does not start with whitespace |
| MarkdownOps.DigitRun | src/utils/markdownOperations.ts:83 | the leading run of digits: all digits, followed by a non-digit or the end |
| MarkdownOps.ListToggleTwice | src/utils/markdownOperations.ts:78-99 | a non-empty trimmed line with no marker comes back after two list toggles, for both list kinds |
| MarkdownOps.ListToggleEmptyLine | src/utils/markdownOperations.ts:78-99 | on an empty line the toggle does not come back: `"" -> "- " -> "- -"` and `"" -> "1. " -> "1. 1."` |
| MarkdownOps.QuoteTwice | src/utils/markdownOperations.ts:242-248 | quoting twice restores the line exactly when the line does not start with `"> > "` |
| MarkdownOps.TaskToggleTwice | src/utils/markdownOperations.ts:295-304 | a line without a plain bullet gets `"- [ ] "` prepended, and a second toggle removes it |
| MarkdownOps.TaskCycle | src/utils/markdownOperations.ts:295-304 | a plain bullet line becomes a task, the task loses its marker, and a third toggle makes it a task again |
| MarkdownOps.TaskCycleExample | src/utils/markdownOperations.ts:295-304 | `"- item" -> "- [ ] item" -> "item" -> "- [ ] item"` |
| MarkdownOps.RowText | src/utils/markdownOperations.ts:128-136 | a table row holds no line break |
| MarkdownOps.BuildTable | src/utils/markdownOperations.ts:125-138 | the loop that builds the table yields the table text: break, header row, separator row, `max(0, rows - 1)` data rows, break |
| MarkdownOps.TableChange | src/utils/markdownOperations.ts:140-148 | the table is inserted at `from` without deleting anything, and the caret goes after it |
| MarkdownOps.TableLines | src/utils/markdownOperations.ts:125-138 | split at line breaks, the table is an empty line, the header row, the separator row, the data rows and two empty lines |
| MarkdownOps.RowDelimiters | src/utils/markdownOperations.ts:128-136 | a row of `cols` cells has `cols + 1` pipe characters |
| MarkdownOps.CellsHaveOneDelimiter | src/utils/markdownOperations.ts:128-136 | each of the three cell texts holds exactly one pipe |
| MarkdownOps.TableLength | src/utils/markdownOperations.ts:125-138 | the table's length is `2 + (2 + dataRows) * (9 * cols + 2)` |
| MarkdownOps.DefaultTable | src/utils/markdownOperations.ts:121-138 | the default 3 by 3 table, line by line |
| MarkdownOps.LinkMarkdown | src/utils/markdownOperations.ts:163-165 | the link text starts with `[` and ends with `)` |
| MarkdownOps.LinkChange | src/utils/markdownOperations.ts:167-176 | the link replaces the selection, with the caret after it, inside the new document |
| MarkdownOps.LinkTextPrecedence | src/utils/markdownOperations.ts:163-165 | the link text is the given text, else the selection, else `链接文本`; the url defaults to `https://` |
| MarkdownOps.LinkFromSelection | src/utils/markdownOperations.ts:163-176 | a selected `click here` with no arguments becomes `[click here](https://)` |
| MarkdownOps.ImageMarkdown | src/utils/markdownOperations.ts:190-192 | the image text starts with `![` and ends with `)` |
| MarkdownOps.ImageChange | src/utils/markdownOperations.ts:194-202 | the image is inserted at `from` without deleting the selection, with the caret after it |
| MarkdownOps.ImageExample | src/utils/markdownOperations.ts:190-192 | alt `diagram` without a url gives `![diagram](image.png)` |
| MarkdownOps.CodeBlockText | src/utils/markdownOperations.ts:216 | the block opens with a fence naming the language and closes with a fence |
| MarkdownOps.CodeBlockChange | src/utils/markdownOperations.ts:218-227 | the block replaces the selection; the caret is at `from + 5 + |language|` |
| MarkdownOps.CodeBlockCaret | src/utils/markdownOperations.ts:216-225 | in the new document the caret sits right after the opening fence line, before the selected text or `// 代码` |
| MarkdownOps.CodeBlockExample | src/utils/markdownOperations.ts:216 | an empty selection with language `ts` gives the placeholder block |
| MarkdownOps.HorizontalRuleChange | src/utils/markdownOperations.ts:272-280 | the rule is inserted without deleting anything, with the caret 6 characters in |
| MarkdownOps.HorizontalRulePlacement | src/utils/markdownOperations.ts:268-281 | the rule goes at the end of the caret's line, and the caret lands on the empty line after `---` |
| MarkdownOps.Editor.constructor | src/utils/markdownOperations.ts:11 | an editor over a document with a selection inside it |
| MarkdownOps.Editor.Dispatch | src/utils/markdownOperations.ts:16-25 | one dispatch applies the change and sets the caret, counting one dispatch |
| MarkdownOps.Editor.Focus | src/utils/markdownOperations.ts:39 | the editor has the focus |
| MarkdownOps.Editor.WrapSelection | src/utils/markdownOperations.ts:9-40 | one dispatch of the wrap change on the old document and selection, then focus |
| MarkdownOps.Editor.InsertHeading | src/utils/markdownOperations.ts:47-68 | one dispatch of the heading rewrite of the caret's line, then focus |
| MarkdownOps.Editor.InsertList | src/utils/markdownOperations.ts:75-113 | one dispatch of the list toggle of the caret's line, then focus |
| MarkdownOps.Editor.InsertTable | src/utils/markdownOperations.ts:121-151 | one dispatch inserting the built table at `from`, then focus |
| MarkdownOps.Editor.InsertLink | src/utils/markdownOperations.ts:159-179 | one dispatch of the link change, then focus |
| MarkdownOps.Editor.InsertImage | src/utils/markdownOperations.ts:187-205 | one dispatch of the image change, then focus |
| MarkdownOps.Editor.InsertCodeBlock | src/utils/markdownOperations.ts:212-230 | one dispatch of the code-block change, then focus |
| MarkdownOps.Editor.InsertQuote | src/utils/markdownOperations.ts:236-262 | one dispatch of the quote toggle of the caret's line, then focus |
| MarkdownOps.Editor.InsertHorizontalRule | src/utils/markdownOperations.ts:268-283 | one dispatch of the rule insertion, then focus |
| MarkdownOps.Editor.InsertTaskList | src/utils/markdownOperations.ts:289-318 | one dispatch of the task toggle of the caret's line, then focus |
| MarkdownOps.QuoteTwiceRestoresDocument | src/utils/markdownOperations.ts:236-262 | for any selection, two quote toggles on an editor restore its document when the line at the selection start does not start with `"> > "` |
| KnowledgeBaseParse.HashCount | src-tauri/src/services/knowledge_base_service.rs:250 | the leading run of `#`: all `#`, followed by another character or the end |
| KnowledgeBaseParse.ParseHeading | src-tauri/src/services/knowledge_base_service.rs:248-265 | a heading has a level from 1 to 6 and non-empty text |
| KnowledgeBaseParse.ParseHeadingIff | src-tauri/src/services/knowledge_base_service.rs:248-265 | a line is a heading of level n with text t exactly when, left-trimmed, it starts with exactly n `#` (1 to 6) and the trimmed remainder is t, non-empty |
| KnowledgeBaseParseTests.ParseHeadingExamples | src-tauri/src/services/knowledge_base_service.rs:278-286 | `"# Title"` is (1, `Title`), `"## Section"` is (2, `Section`), `"No heading"` is none |
| KnowledgeBaseParseTests.ParseHeadingRejects | src-tauri/src/services/knowledge_base_service.rs:253-262 | seven `#` and a heading with only spaces after the marker are not headings |
| KnowledgeBaseParse.StripReturns | src-tauri/src/services/knowledge_base_service.rs:181 | every line loses one trailing carriage return, as `str::lines` does |
| KnowledgeBaseParse.LinesOfBlock | src-tauri/src/services/knowledge_base_service.rs:181 | joining lines with breaks and splitting again gives back the lines |
| KnowledgeBaseParse.NonSpaceCountAppend | src-tauri/src/services/knowledge_base_service.rs:106 | the word count of a concatenation is the sum of the counts |
| KnowledgeBaseParse.NonSpaceCountFull | src-tauri/src/services/knowledge_base_service.rs:106 | the word count equals the length exactly when the text has no whitespace |
| KnowledgeBaseParse.FileStem | src-tauri/src/services/knowledge_base_service.rs:99-102 | a file stem is non-empty and holds no `/` |
| KnowledgeBaseParse.StemOfName | src-tauri/src/services/knowledge_base_service.rs:99-102 | the stem of `base.ext` is `base` |
| KnowledgeBaseParse.StemOfUndotted | src-tauri/src/services/knowledge_base_service.rs:99-102 | a name without an inner dot is its own stem |
| KnowledgeBaseParse.StemIgnoresDirectory | src-tauri/src/services/knowledge_base_service.rs:99-102 | the directory part of a path does not change the stem |
| KnowledgeBaseParse.Title | src-tauri/src/services/knowledge_base_service.rs:112-116 | the title is the first heading's text, else the file stem, else `Untitled` |
| KnowledgeBaseParse.TitleIsFirstHeading | src-tauri/src/services/knowledge_base_service.rs:112-116 | when line i is the first heading, the title is its text |
| KnowledgeBaseParse.TitleWithoutHeadings | src-tauri/src/services/knowledge_base_service.rs:112-116 | without headings the title is the stem, or `Untitled` |
| KnowledgeBaseParse.UpdatePath | src-tauri/src/services/knowledge_base_service.rs:203-208 | the heading path after a heading ends with its text, after the path cut to `level - 1` entries when the level is within the path |
| KnowledgeBaseParse.UpdatePathTruncates | src-tauri/src/services/knowledge_base_service.rs:203-206 | a heading within the path's depth cuts it to `level` entries |
| KnowledgeBaseParse.UpdatePathBounded | src-tauri/src/services/knowledge_base_service.rs:203-208 | the path grows by at most one entry per heading |
| KnowledgeBaseParse.PathEndsWithLatestHeading | src-tauri/src/services/knowledge_base_service.rs:203-208 | after a heading line, the path's last entry is that heading's text |
| KnowledgeBaseParse.PathSkipsPlainLines | src-tauri/src/services/knowledge_base_service.rs:185-208 | a line that is not a heading leaves the path as it was |
| KnowledgeBaseParse.HeadingsInExact | src-tauri/src/services/knowledge_base_service.rs:183-201 | the recorded headings are exactly the heading lines, each with its 0-based line, in ascending order |
| KnowledgeBaseParse.HeadingsToComplete | src-tauri/src/services/knowledge_base_service.rs:185-201 | every heading line is recorded |
| KnowledgeBaseParse.TrimEmptyIffBlank | src-tauri/src/services/knowledge_base_service.rs:189 | a trimmed text is empty exactly when the text is all whitespace |
| KnowledgeBaseParse.BlankBlock | src-tauri/src/services/knowledge_base_service.rs:189 | a block of lines is blank exactly when each line is |
| KnowledgeBaseParse.ChunkPathIsPathAfter | src-tauri/src/services/knowledge_base_service.rs:187-242 | a chunk's heading path is the path in force after its last line |
| KnowledgeBaseParse.ChunksFromRun | src-tauri/src/services/knowledge_base_service.rs:214-230 | a chunk that no line before its last would have closed, and that its last line closes, is emitted whole, and the next chunk opens on the line after |
| KnowledgeBaseParse.RunsNoCloser | src-tauri/src/services/knowledge_base_service.rs:214-230 | in a chunk whose lines are all plain and fit the size limit, no line before the last one closes the chunk |
| KnowledgeBaseParse.ChunksFromGood | src-tauri/src/services/knowledge_base_service.rs:187-242 | every chunk of the reference definition has the trimmed non-empty content of its lines, start at most end, the heading path after its end, no line inside that would have closed it, and ends where a chunk is closed: the last line, the line before a heading, a `---` line or the line taking the content past 2000 |
| KnowledgeBaseParse.ChunksFromOrdered | src-tauri/src/services/knowledge_base_service.rs:187-242 | the chunks come in ascending line order without overlap |
| KnowledgeBaseParse.ChunksFromCover | src-tauri/src/services/knowledge_base_service.rs:187-242 | every line that is not blank lies in some chunk |
| KnowledgeBaseParse.GoodInMarks | src-tauri/src/services/knowledge_base_service.rs:187-242 | the chunk facts stated over the lines' marks are the chunk facts of the lines |
| KnowledgeBaseParse.ChunksFacts | src-tauri/src/services/knowledge_base_service.rs:175-245 | the chunks of a text are all good, ascending, and cover every non-blank line |
| KnowledgeBaseParseTests.ChunksExample | src-tauri/src/services/knowledge_base_service.rs:187-242 | `a`, `---`, a blank line and `b` give the chunks `a` + break + `---` (lines 0 to 1) and `b` (lines 2 to 3), both with no headings |
| KnowledgeBaseParse.ParseMarkdown | src-tauri/src/services/knowledge_base_service.rs:175-245 | the headings are the heading lines (as above) and the chunks are exactly the reference chunks `Chunks` of the text's lines |
| KnowledgeBaseParse.ScanLines | src-tauri/src/services/knowledge_base_service.rs:183-242 | the loop over the lines yields the heading lines and exactly the reference chunks |
| KnowledgeBaseParse.ScanLine | src-tauri/src/services/knowledge_base_service.rs:185-231 | one turn of the loop keeps the scan invariant: the chunks emitted so far followed by the reference chunks from the open chunk on are all the chunks |
| KnowledgeBaseParse.LineMark | src-tauri/src/services/knowledge_base_service.rs:185 | the mark of the line is what `parse_heading` makes of it |
| KnowledgeBaseParse.Absorb | src-tauri/src/services/knowledge_base_service.rs:214-230 | the line joins the buffer; past 2000 or on a `---` line the chunk is closed, kept only when non-blank, and the next one starts at the following line |
| KnowledgeBaseParse.CloseWith | src-tauri/src/services/knowledge_base_service.rs:216-228 | the chunk closed together with its last line is kept when non-blank, and the rest of the chunks are those from the next line on |
| KnowledgeBaseParse.Flush | src-tauri/src/services/knowledge_base_service.rs:187-195 | a closed chunk is kept exactly when its trimmed content is non-empty, and what is left to emit is the reference chunks from its end on |
| KnowledgeBaseParse.AgreesAfter | src-tauri/src/services/knowledge_base_service.rs:187-230 | emitting a chunk that ends where a chunk is closed keeps the emitted chunks a prefix of the reference chunks |
| KnowledgeBaseParse.Finish | src-tauri/src/services/knowledge_base_service.rs:234-242 | closing the last open chunk completes exactly the reference chunks |
| KnowledgeBaseService.IndexOfKb | src-tauri/src/services/knowledge_base_service.rs:131-135 | the index of the first knowledge base with the id, or -1 when there is none |
| KnowledgeBaseService.FindKb | src-tauri/src/services/knowledge_base_service.rs:83-86 | a found knowledge base is stored and has the id; none is found exactly when no stored one has it |
| KnowledgeBaseService.OwnerOf | src-tauri/src/services/knowledge_base_service.rs:155-159 | the knowledge base of a stored document with the id; none exactly when no document has it |
| KnowledgeBaseService.DocumentsOf | src-tauri/src/services/knowledge_base_service.rs:143-150 | the documents with the knowledge base's id, and only those |
| KnowledgeBaseService.CountIsDocumentsOf | src-tauri/src/services/knowledge_base_service.rs:133-136 | the recount equals the number of documents `get_documents` returns |
| KnowledgeBaseService.CountAfterPush | src-tauri/src/services/knowledge_base_service.rs:130-136 | pushing a document adds one to its own knowledge base's count only |
| KnowledgeBaseService.CountAfterRetain | src-tauri/src/services/knowledge_base_service.rs:161-169 | removing documents of other knowledge bases leaves a count unchanged |
| KnowledgeBaseService.Recount | src-tauri/src/services/knowledge_base_service.rs:131-136 | the recount keeps the list's length and ids |
| KnowledgeBaseService.RecountChangesOne | src-tauri/src/services/knowledge_base_service.rs:131-136 | only the first knowledge base with the id gets the new count and time; every other entry is unchanged |
| KnowledgeBaseService.RecountConsistent | src-tauri/src/services/knowledge_base_service.rs:131-136 | recounting the one stale knowledge base makes every count right again |
| KnowledgeBaseService.CreateKeepsConsistent | src-tauri/src/services/knowledge_base_service.rs:54-74 | creating an empty knowledge base with a new id keeps every count right |
| KnowledgeBaseService.DeleteKbRemovesExactly | src-tauri/src/services/knowledge_base_service.rs:89-94 | deleting removes that knowledge base and its documents and nothing else; with no match nothing changes |
| KnowledgeBaseService.DeleteKbKeepsConsistent | src-tauri/src/services/knowledge_base_service.rs:89-94 | deleting a knowledge base keeps every count right |
| KnowledgeBaseService.ImportCounts | src-tauri/src/services/knowledge_base_service.rs:129-136 | the document is appended and its knowledge base counts one more |
| KnowledgeBaseService.ImportKeepsConsistent | src-tauri/src/services/knowledge_base_service.rs:129-136 | importing a document with a new id keeps every count right |
| KnowledgeBaseService.DeleteUnknownDoc | src-tauri/src/services/knowledge_base_service.rs:153-172 | deleting an unknown document id changes nothing |
| KnowledgeBaseService.DeleteDocRemovesExactly | src-tauri/src/services/knowledge_base_service.rs:161 | deleting removes the documents with that id and keeps all others |
| KnowledgeBaseService.DeleteDocKeepsConsistent | src-tauri/src/services/knowledge_base_service.rs:153-172 | deleting a document keeps every count right |
| KnowledgeBaseService.MetadataOf | src-tauri/src/services/knowledge_base_service.rs:105-110 | the metadata's headings are the document's heading lines, and it has no keywords |
| KnowledgeBaseService.StorageData.constructor | src-tauri/src/services/knowledge_base_service.rs:12-16 | empty storage |
| KnowledgeBaseService.StorageData.CreateKnowledgeBase | src-tauri/src/services/knowledge_base_service.rs:54-74 | the new knowledge base has count 0 and both times `now`, and it is appended |
| KnowledgeBaseService.StorageData.ListKnowledgeBases | src-tauri/src/services/knowledge_base_service.rs:77-80 | the stored knowledge bases in order |
| KnowledgeBaseService.StorageData.GetKnowledgeBase | src-tauri/src/services/knowledge_base_service.rs:83-86 | the first knowledge base with the id |
| KnowledgeBaseService.StorageData.DeleteKnowledgeBase | src-tauri/src/services/knowledge_base_service.rs:89-94 | the new state is the delete function of the old one |
| KnowledgeBaseService.StorageData.ImportDocument | src-tauri/src/services/knowledge_base_service.rs:97-140 | the document carries its ids, content, time, metadata (word count, line count, headings), title and exactly the reference chunks of its lines; it is appended and its knowledge base recounted |
| KnowledgeBaseService.StorageData.GetDocuments | src-tauri/src/services/knowledge_base_service.rs:143-150 | the knowledge base's documents in stored order |
| KnowledgeBaseService.StorageData.DeleteDocument | src-tauri/src/services/knowledge_base_service.rs:153-172 | the new state is the document delete of the old one, recounting the owner |
| History.Without | src-tauri/src/services/history_service.rs:66 | the path is gone and every other path is kept |
| History.AddPutsPathFirst | src-tauri/src/services/history_service.rs:66-69 | the added path comes first |
| History.AddMakesPathUnique | src-tauri/src/services/history_service.rs:66-69 | the added path occurs exactly once |
| History.AddIsBounded | src-tauri/src/services/history_service.rs:71-74 | the list holds at most 10 paths |
| History.AddKeepsOrder | src-tauri/src/services/history_service.rs:66-74 | behind the path come the other paths in their old order, cut to 10 in all |
| History.AddToFront | src-tauri/src/services/history_service.rs:66-74 | adding the path already first in a duplicate-free list of at most 10 changes nothing |
| History.AddIdempotent | src-tauri/src/services/history_service.rs:66-74 | adding a path twice equals adding it once |
| History.WithoutAppend | src-tauri/src/services/history_service.rs:82 | removal distributes over concatenation, so the others keep their order |
| History.WithoutAbsent | src-tauri/src/services/history_service.rs:82 | removing an absent path changes nothing |
| History.HistoryStore.constructor | src-tauri/src/services/history_service.rs:33-35 | no history file yet: an empty list |
| History.HistoryStore.LoadHistory | src-tauri/src/services/history_service.rs:30-45 | the stored list, or an error when the file cannot be read or parsed |
| History.HistoryStore.AddToHistory | src-tauri/src/services/history_service.rs:62-77 | the stored list becomes the move-to-front of the loaded one, a failed load reading as empty |
| History.HistoryStore.RemoveFromHistory | src-tauri/src/services/history_service.rs:80-84 | the stored list becomes the loaded one without the path |
| History.HistoryStore.ClearHistory | src-tauri/src/services/history_service.rs:87-89 | the stored list is empty |
| Navigation.IndexOfTab | src/store/navigation.ts:29 | the index of the first tab with the id, or -1 when there is none |
| Navigation.OpenTabOpens | src/store/navigation.ts:21-27 | the tab becomes active; an open id leaves the tabs unchanged, otherwise the tab is appended with `closable` defaulting to true |
| Navigation.OpenTabIdempotent | src/store/navigation.ts:21-27 | opening the same tab twice equals opening it once |
| Navigation.OpenTabKeepsIdsUnique | src/store/navigation.ts:22-25 | opening keeps tab ids unique |
| Navigation.CloseUnknownTab | src/store/navigation.ts:28-30 | closing an unknown id changes nothing |
| Navigation.CloseTabRemovesExactly | src/store/navigation.ts:32 | closing removes exactly that tab and keeps the others in order |
| Navigation.CloseTabActive | src/store/navigation.ts:33-35 | closing the active tab activates the tab that was before it, else the new first, else none; otherwise the active id stays |
| Navigation.InitialActiveShown | src/store/navigation.ts:12-16 | initially the active id is empty or open |
| Navigation.OpenTabKeepsActiveShown | src/store/navigation.ts:21-27 | after opening, the active tab is open |
| Navigation.CloseTabKeepsActiveShown | src/store/navigation.ts:28-36 | closing keeps the active id empty or open |
| Navigation.CloseOtherTabsKeepsActiveShown | src/store/navigation.ts:40-43 | after closing the others, the active id is empty or open |
| Navigation.CloseOtherTabsKeepsOnly | src/store/navigation.ts:40-43 | only tabs with the id remain, at most one, and the id is active even when absent |
| Navigation.SetActiveTabMayHideActive | src/store/navigation.ts:37-39 | activating an id that is not open is allowed, so "the active tab is open" is not kept |
| Navigation.NavStore.constructor | src/store/navigation.ts:12-16 | the initial state |
| Navigation.NavStore.SetActiveView | src/store/navigation.ts:18-20 | only the view changes |
| Navigation.NavStore.OpenTab | src/store/navigation.ts:21-27 | the new state is the open function of the old one |
| Navigation.NavStore.CloseTab | src/store/navigation.ts:28-36 | the new state is the close function of the old one |
| Navigation.NavStore.SetActiveTab | src/store/navigation.ts:37-39 | only the active id changes |
| Navigation.NavStore.CloseOtherTabs | src/store/navigation.ts:40-43 | the new state is the close-others function of the old one |
| Navigation.NavStore.CloseAllTabs | src/store/navigation.ts:44-47 | the new state has no tabs and no active id |
| Layout.Clamp | src/store/layout.ts:13 | the clamped value lies in range, is the value when in range, and the nearer bound otherwise |
| Layout.ActionsKeepInRange | src/store/layout.ts:4-26 | the initial sizes lie in range, and every action keeps both sizes in range |
| Layout.SettersIdempotent | src/store/layout.ts:12-20 | setting a size twice equals setting it once, and setting the stored size changes nothing |
| Layout.TogglesAreInvolutions | src/store/layout.ts:15-23 | each toggle flips its flag, and toggling twice restores the state |
| Layout.LayoutStore.constructor | src/store/layout.ts:4-10 | width 300, visible sidebar, height 200, hidden panel, single layout |
| Layout.LayoutStore.SetSidebarWidth | src/store/layout.ts:12-14 | only the width changes, to the width clamped to 200..600 |
| Layout.LayoutStore.ToggleSidebar | src/store/layout.ts:15-17 | only the sidebar flag changes, negated |
| Layout.LayoutStore.SetPanelHeight | src/store/layout.ts:18-20 | only the height changes, to the height clamped to 100..500 |
| Layout.LayoutStore.TogglePanel | src/store/layout.ts:21-23 | only the panel flag changes, negated |
| Layout.LayoutStore.SetEditorLayout | src/store/layout.ts:24-26 | only the editor layout changes |
| FileTypes.EntryOrderComplete | src/types/fileTypes.ts:20-74 | the table's entry order lists every type once |
| FileTypes.ExtensionsDisjoint | src/types/fileTypes.ts:20-74 | no extension belongs to two types |
| FileTypes.UnknownHasNoExtensions | src/types/fileTypes.ts:67-68 | the unknown type lists no extensions |
| FileTypes.PreviewTable | src/types/fileTypes.ts:20-74 | preview is supported exactly for Markdown and images |
| FileTypes.EditorModeTable | src/types/fileTypes.ts:20-74 | `both` exactly for Markdown, `preview` exactly for images and unknown files, `edit` for the rest |
| FileTypes.LanguageTable | src/types/fileTypes.ts:20-74 | a language exactly for Markdown, TypeScript, JavaScript and JSON |
| FileTypeDetector.GetFileExtension | src/utils/fileTypeDetector.ts:55-57 | the extension is the lower case of a dot-free tail of the path |
| FileTypeDetector.ExtensionOfDotted | src/utils/fileTypeDetector.ts:55-57 | the extension of `base.ext` is `ext` lower-cased, whatever dots `base` holds |
| FileTypeDetector.ExtensionOfUndotted | src/utils/fileTypeDetector.ts:55-57 | a name without a dot is its own extension, lower-cased |
| FileTypeDetector.Lookup | src/utils/fileTypeDetector.ts:11-17 | the type found lists the extension, or it is unknown when no type in the order does |
| FileTypeDetector.DetectFileTypeIff | src/utils/fileTypeDetector.ts:8-18 | a path has a type exactly when the type lists its extension, or the type is unknown and no type does |
| FileTypeDetector.IsEditableFile | src/utils/fileTypeDetector.ts:35-38 | editable exactly when the editor mode is `edit` or `both`: every type but images and unknown files |
| FileTypeDetector.IsPreviewableFile | src/utils/fileTypeDetector.ts:45-48 | previewable exactly for Markdown files and images |
| FileTypeDetector.ExtensionCaseInsensitive | src/utils/fileTypeDetector.ts:9 | lower-casing the path changes neither its extension nor its type |
| FileTypeExamples.Detects | src/utils/fileTypeDetector.test.ts:13-40 | a file named `base.ext` has the type whose list holds `ext` lower-cased |
| FileTypeExamples.UpperCaseDetected | src/utils/fileTypeDetector.test.ts:48-51 | `….TS` has extension `ts` and is TypeScript |
| FileTypeExamples.LastDotCounts | src/utils/fileTypeDetector.test.ts:113-115 | `….test.ts` has extension `ts` |
| FileTypeExamples.UnlistedExtension | src/utils/fileTypeDetector.test.ts:43-45 | `….xyz` is unknown |
| FileTypeExamples.UndottedUnknown | src/utils/fileTypeDetector.test.ts:107-111 | a name without a dot is its own extension, and unknown unless the name is an extension |
| FileTypeExamples.NoExtension | src/utils/fileTypeDetector.test.ts:43-45 | `noextension` is its own extension and unknown |
| FileIcons.GetFolderIcon | src/utils/fileIcons.ts:29-31 | `FolderOpen` exactly when open, else `Folder` |
| FileIcons.GetFileIcon | src/utils/fileIcons.ts:9-12 | the icon of the detected type's table entry |
| FileIcons.GetFileIconColor | src/utils/fileIcons.ts:19-22 | the colour class of the detected type's table entry |
| FileIcons.GetEditorLanguage | src/utils/fileIcons.ts:38-41 | the editor language of the detected type's table entry, none for `undefined` |
| FileIcons.ColorIdentifiesType | src/utils/fileIcons.ts:19-22 | two files get the same colour class exactly when they have the same type |
| FileIcons.ColorsDistinct | src/types/fileTypes.ts:20-74 | no two types share a colour class |
| FileIcons.IconFamilies | src/utils/fileIcons.ts:9-22 | the icon is `FileCode` exactly for TypeScript and JavaScript, `FileText` for Markdown and text, `FileJson` for JSON, `Image` for images, `File` for the rest |
| FileIcons.TextTypesEditable | src/utils/fileIcons.ts:62-71 | the text types are all types but images and unknown files |
| FileIcons.TextIffEditable | src/utils/fileIcons.ts:62-71 | a file is a text file exactly when it is editable |
| FileIcons.CodeFilesAreText | src/utils/fileIcons.ts:48-71 | every code file is a text file; code files are the text files with a language that are not Markdown |
| FileTree.Listing | src-tauri/src/commands.rs:98-101 | only a readable directory has a listing, its entries |
| FileTree.SortNodes | src-tauri/src/commands.rs:144-148 | sorting permutes the nodes |
| FileTree.SortNodesSorted | src-tauri/src/commands.rs:144-148 | the sorted nodes are ordered directories first, then by lower-cased name |
| FileTree.SortNodesMembers | src-tauri/src/commands.rs:144-148 | sorting keeps exactly the nodes it was given |
| FileTree.SortedGroups | src-tauri/src/commands.rs:144-148 | in sorted nodes every directory comes before every file, and each group is in lower-cased name order |
| FileTree.SortNodesKeepsSorted | src-tauri/src/commands.rs:144-148 | sorting sorted nodes changes nothing, as a stable sort does |
| FileTree.LexLessTransitive | src-tauri/src/commands.rs:147 | string order is transitive |
| FileTree.LexLessTotal | src-tauri/src/commands.rs:147 | two different strings are ordered one way or the other |
| DirCommands.ReadDirRecursive | src-tauri/src/commands.rs:93-151 | the walk gives the tree function: nothing below depth 0 or for an unreadable directory, otherwise the kept entries' nodes, sorted |
| DirCommands.VisitEntry | src-tauri/src/commands.rs:105-140 | one entry's contribution: nothing for a broken or ignored entry, a directory node with its subtree, or a file node |
| DirCommands.ReadDirectoryTree | src-tauri/src/commands.rs:154-160 | an error exactly for a missing root |
| DirCommands.TreeShaped | src-tauri/src/commands.rs:93-151 | the tree is sorted at every level, skips ignored names, has children exactly on directories, and nests at most `depth + 1` levels |
| DirCommands.TreeLists | src-tauri/src/commands.rs:105-148 | a node is in the tree exactly when some entry of the listing contributes it |
| DirCommands.NodeOfKinds | src-tauri/src/commands.rs:113-140 | an entry contributes nothing exactly when broken or ignored; otherwise one node with its name, joined path and kind, and a directory's children are its subtree one level down |
| DirCommands.TreeCutOff | src-tauri/src/commands.rs:94-101 | below depth 0, and for an unreadable directory, the walk is empty |
| FsCommands.ReadDirRecursive | src-tauri/src/commands/fs.rs:30-87 | the walk gives its tree function: nothing at depth 0 or for an unreadable directory, otherwise the kept entries' nodes, sorted |
| FsCommands.VisitEntry | src-tauri/src/commands/fs.rs:42-76 | one entry's contribution |
| FsCommands.ReadDirectoryTree | src-tauri/src/commands/fs.rs:15-28 | a missing root and a root that is not a directory are the two errors; otherwise the walk from 10 |
| FsCommands.FsTreeShaped | src-tauri/src/commands/fs.rs:30-87 | sorted at every level, no ignored names, children exactly on directories, at most `max_depth` levels |
| FsCommands.DepthRulesDiffer | src-tauri/src/commands/fs.rs:31-33 | the `commands.rs` walk at depth d equals the `fs.rs` walk at depth d + 1 |
| FsCommands.RootWalksDiffer | src-tauri/src/commands/fs.rs:27 | from the same root depth 10, the `commands.rs` walk shows what `fs.rs` shows from 11 |
| ContentSearch.SearchContent | src-tauri/src/commands.rs:21-33 | an empty query gives no results; otherwise the results of the walk with the lower-cased query |
| ContentSearch.SearchRecursive | src-tauri/src/commands.rs:35-81 | the walk appends exactly the entry's results to those before, or ends with its error |
| ContentSearch.SearchEntries | src-tauri/src/commands.rs:40-56 | the loop over a directory's entries appends their results in listing order, or ends with the first error |
| ContentSearch.ScanLines | src-tauri/src/commands.rs:59-68 | the loop over the lines yields the matches |
| ContentSearch.MatchLinesExact | src-tauri/src/commands.rs:61-68 | a match for exactly the lines whose lower case contains the query, each with its 0-based index and trimmed text, in ascending line order |
| ContentSearch.SearchFindsMarkdown | src-tauri/src/commands.rs:57-78 | every result is a `.md` file with at least one match |
| ContentSearch.SearchAllFindsMarkdown | src-tauri/src/commands.rs:40-78 | in a directory too, and no result has an ignored name |
| ContentSearch.SearchNamesEntries | src-tauri/src/commands.rs:46-53 | no result of a non-ignored entry has an ignored name |
| ContentSearch.SearchAllFailsOnBroken | src-tauri/src/commands.rs:41-42 | a broken entry makes the whole directory's search fail |
| ContentSearch.SearchAllKeepsError | src-tauri/src/commands.rs:55 | a failure is not overwritten by later entries |
| ContentSearch.SearchExact | src-tauri/src/commands.rs:35-81 | a successful walk reports a result exactly for each Markdown file reached through readable directories and unignored names that has a matching line; the result carries its path, its name and all its matches |
| ContentSearch.SearchAllExact | src-tauri/src/commands.rs:40-56 | a successful walk of the first entries of a listing reports exactly the hits below them |
| ContentSearch.HitInLast | src-tauri/src/commands.rs:40-56 | a hit among the first n entries is a hit among the first n - 1 or below entry n - 1 |
| ContentSearch.SearchContentExact | src-tauri/src/commands.rs:21-33 | with a non-empty query, a successful search reports exactly the hits of the lower-cased query |
| ContentSearch.QueryCaseInsensitive | src-tauri/src/commands.rs:26 | the query's case does not matter |
| ContentSearch.SingleFile | src-tauri/src/commands.rs:57-78 | a Markdown root gives one result with its matches, or none when no line matches |
| ExportMarkdown.Body | src-tauri/src/commands.rs:185-191 | the content itself when flagged HTML, else its rendering |
| ExportMarkdown.Export | src-tauri/src/commands.rs:183-224 | success exactly for `html`, `docx` and `doc` when the write succeeds; `html` writes the HTML page, the others the Word page; any other format is the unsupported-format error |
| ExportMarkdown.DocAndDocxAgree | src-tauri/src/commands.rs:201 | `doc` and `docx` write the same page |
| ExportMarkdown.MissingFlagRenders | src-tauri/src/commands.rs:185 | a missing flag reads as false |
| ExportMarkdown.UnsupportedNamesFormat | src-tauri/src/commands.rs:220 | an unsupported format fails with the message naming it |
| Version.Show | scripts/upgrade-version.ts:41 | a number's decimal text is non-empty and all digits |
| Version.ValueShow | scripts/upgrade-version.ts:22-25 | `parseInt` of a number's decimal text is the number |
| Version.PadStart | scripts/upgrade-version.ts:33-34 | padding reaches the width and keeps the text at the end |
| Version.ValueLeadingZeros | scripts/upgrade-version.ts:25 | leading zeros do not change the value |
| Version.PaddedBuild | scripts/upgrade-version.ts:41 | a build below 1000 padded to 3 is 3 digits of the same value |
| Version.MatchAt | scripts/upgrade-version.ts:17 | a match at a position has an 8-digit date and a build below 1000 |
| Version.FirstMatchLeftmost | scripts/upgrade-version.ts:17 | the match found is at some position with no match before it |
| Version.FirstMatchNone | scripts/upgrade-version.ts:17-20 | the search fails exactly when no position matches, with the invalid-format message |
| Version.ParseVersion | scripts/upgrade-version.ts:15-27 | the leftmost match of the unanchored pattern gives the fields; no match is the invalid-format error |
| Version.NextBuild | scripts/upgrade-version.ts:36-39 | the old build plus one on the same day, else 1 |
| Version.FormatPrefix | scripts/upgrade-version.ts:41 | every generated version starts with `Ver:` |
| Version.GenerateNewVersion | scripts/upgrade-version.ts:29-42 | fails exactly when parsing fails; otherwise major and minor kept, today's date, the next build |
| Version.DateAndBuild | scripts/upgrade-version.ts:17 | the date read is 8 digits and the build read, 3 digits, is below 1000 |
| Version.MatchFormatted | scripts/upgrade-version.ts:17-41 | a formatted version matches at position 0 with its own major, minor and date, and with the first three digits of its build |
| Version.GenerateThenParse | scripts/upgrade-version.ts:15-42 | parsing a generated version gives back major, minor, today and the new build, for a build up to 999 |
| Version.GenerateThenParseOverflow | scripts/upgrade-version.ts:17-41 | after build 999 of a day the next build is 1000, and reading the generated version back gives build 100 |
| Version.VersionFile.constructor | scripts/upgrade-version.ts:52-53 | the file's version and changelog |
| Version.VersionFile.Upgrade | scripts/upgrade-version.ts:48-75 | on success the version is the new one and a new entry goes first, the older entries unchanged; on failure nothing changes |
| Version.VersionFile.RunUpgrade | scripts/upgrade-version.ts:77-85 | without a description the script fails and nothing changes; otherwise as the upgrade |
| GitTag.ConvertToGitTag | scripts/mytag.ts:20-23 | a leading `Ver:` becomes `v`; anything else is unchanged |
| GitTag.TagKeepsRest | scripts/mytag.ts:22 | only the prefix changes: the rest is kept |
| GitTag.ConvertIdempotent | scripts/mytag.ts:22 | converting twice is converting once |
| GitTag.ConvertInjectiveOnVersions | scripts/mytag.ts:22 | different versions get different tags |
| GitTag.TagOfGenerated | scripts/mytag.ts:20-23 | every generated version's tag is `v` and its fields |
| GitTag.DocumentedExample | scripts/mytag.ts:17-19 | `Ver:1.0.20260206.007` becomes `v1.0.20260206.007` |
| GitSummary.ActionOf | scripts/mygit.ts:42-49 | the action is `更新` exactly for a flag other than `M`, `A`, `??`, `D` and `R` |
| GitSummary.Entries | scripts/mygit.ts:38-52 | one entry per status line |
| GitSummary.EntryOfStatusLine | scripts/mygit.ts:39-51 | a line with columns x and y, a space and a path gives the action of the trimmed flag and the path's last segment |
| GitSummary.ShortSummary | scripts/mygit.ts:53 | up to 5 lines: `Auto-Summary: ` and every entry, joined by `, ` |
| GitSummary.LongSummary | scripts/mygit.ts:53 | more than 5 lines: the first 5 entries, then ` 等...` |
| GitSummary.PlanChoice | scripts/mygit.ts:18-33 | no commit exactly for an empty status; a non-empty argument message is used as it is |
| GitSummary.LinesOfRender | scripts/mygit.ts:37 | a status listing whose end is trimmed splits back into its lines |
| GitSummary.SummaryNamesEveryPath | scripts/mygit.ts:4-53 | without an argument, the corrected plan commits the summary of every status line, each naming its action and the last segment of its path |
| GitSummary.AsWrittenDropsFirstCharacter | scripts/mygit.ts:4-45 | as written, status ` M name` gives `Auto-Summary: 修改: ` and the name without its first character |
| GitSummary.CorrectedKeepsFirstCharacter | scripts/mygit.ts:4-45 | with only the end trimmed, the same status gives the whole name |

The functions below compute the state or the result of one source
operation and carry no contract of their own; the rows above for the same
source lines are the lemmas that state what each promises.

- `History.Add` (src-tauri/src/services/history_service.rs:62-77): `AddPutsPathFirst`, `AddMakesPathUnique`, `AddIsBounded`, `AddKeepsOrder`, `AddToFront`, `AddIdempotent`.
- `GitSummary.CommitPlanAsWritten` and `GitSummary.CommitPlan` (scripts/mygit.ts:4-53): `PlanChoice`, `SummaryNamesEveryPath`, `AsWrittenDropsFirstCharacter`, `CorrectedKeepsFirstCharacter`.
- `Navigation.Open`, `Close`, `Activate`, `CloseOthers`, `CloseAll` and `WithView` (src/store/navigation.ts:18-47): `OpenTabOpens` to `SetActiveTabMayHideActive`, and the `NavStore` methods that apply them.
- `KnowledgeBaseService.Create`, `DeleteKb`, `Import`, `DeleteDoc` and the invariant `Consistent` (src-tauri/src/services/knowledge_base_service.rs:54-172): `CreateKeepsConsistent` to `DeleteDocKeepsConsistent`.
- `Layout.SidebarResized`, `SidebarToggled`, `PanelResized`, `PanelToggled` and `LayoutChosen` (src/store/layout.ts:12-26): `ActionsKeepInRange`, `SettersIdempotent`, `TogglesAreInvolutions`, and the `LayoutStore` methods.
- `Version.FirstMatch`, `Format` and `DateString` (scripts/upgrade-version.ts:17-41): `FirstMatchLeftmost`, `FirstMatchNone`, `FormatPrefix`, `MatchFormatted`, `GenerateThenParse`, `GenerateThenParseOverflow`.
- `ContentSearch.Search`, `SearchAll`, `MatchLines` and `SearchContentOf` (src-tauri/src/commands.rs:21-81): `MatchLinesExact`, `SearchExact`, `SearchAllExact`, `SearchContentExact`, `SearchFindsMarkdown` to `SingleFile`, and the walk methods proved equal to them.
- `DirCommands.Tree`, `Nodes` and `NodeOf` (src-tauri/src/commands.rs:93-151): `TreeShaped`, `TreeLists`, `NodeOfKinds`, `TreeCutOff`, and `ReadDirRecursive`.
- `FsCommands.FsTree`, `FsNodes` and `FsNodeOf` (src-tauri/src/commands/fs.rs:30-87): `FsTreeShaped`, `DepthRulesDiffer`, `RootWalksDiffer`, and `ReadDirRecursive`.
- `FileIcons.IsCodeFile` and `IsTextFile` (src/utils/fileIcons.ts:48-71): `TextIffEditable`, `CodeFilesAreText`.
- `FileTypes.Config` (src/types/fileTypes.ts:20-74): `EntryOrderComplete` to `LanguageTable`, and `ColorsDistinct`.
- `FileTypeDetector.DetectFileType` and `GetFileTypeConfig` (src/utils/fileTypeDetector.ts:8-28): `DetectFileTypeIff`, `ExtensionCaseInsensitive`, and the `FileTypeExamples` lemmas.
- `ExportMarkdown.PageKindOf` and `UnsupportedMessage` (src-tauri/src/commands.rs:193-220): `Export`, `DocAndDocxAgree`, `UnsupportedNamesFormat`.
- `KnowledgeBaseParse.Chunks` (src-tauri/src/services/knowledge_base_service.rs:187-242), the chunks stated without the scanner: `ChunksFacts`, `ChunksExample`, and `ParseMarkdown`, which is proved to return them.

## Left out

- The CodeMirror view is a document, a selection, a dispatch count and a focus flag. Undo grouping, transactions and rendering are not modelled.
- MarkdownOps.Editor.InsertTable: `rows` and `cols` are integers. JavaScript's `repeat` on a negative or fractional count (a `RangeError` or a truncation) is not modelled. `cols` is a `nat`, so a negative column count does not arise.
- Unicode: `trim`, `toLowerCase`, `to_lowercase`, `trim_start` and regex `\s` are on ASCII. `String::len` (bytes) is counted in characters for the 2000 threshold.
- JSON persistence of the knowledge base and history (`load_data`, `save_data`, serde) is left out. The history file is a field that a read fails on when it is `None`, and writes do not fail.
- Chunk ids, the knowledge-base uuid and `Utc::now` are parameters (`docId`, `id`, `now`). The chunk id is therefore not part of `Chunk`.
- KnowledgeBaseService.StorageData.ImportDocument: reading the file is not modelled; its text is the `content` parameter, and a read error is not modelled.
- The file system is the datatype `FileTree.Entry`: a file with readable or unreadable content, a directory that is readable or not, and a broken listing entry. Symbolic links and changes during a walk are not modelled. `Path::join` is `parent + "/" + name`.
- FileTree.SortNodes: `sort_by` is modelled as a stable insertion sort. The proved facts (a permutation, the order, stability on sorted input) are what `sort_by` promises.
- ContentSearch.SearchContent: a root that does not exist behaves as an unreadable file of that name. The operating system's error text is the constant `IoError`. Results collected before an error are dropped, as `search_content` drops them with `?`.
- ExportMarkdown.Export: `markdown::to_html` is a parameter. The page templates are reduced to which page is written, and the write's outcome is the parameter `writeError`.
- The other commands of `commands.rs` and `fs.rs` (`read_file_content`, `write_file_content`, `create_dir`, `save_binary_file`, file creation, renaming and deleting) are file-system calls with nothing to compute.
- Process and clock I/O in the scripts: git through `spawnSync`, `process.exit`, console output, reading and writing `version.json`. The current date is the parameter `today`, and `toISOString`'s date (which depends on the time zone) is the parameter `isoDate`. In `mygit.ts` the raw `git status --short` output and the arguments are parameters; `git add`, `commit` and `push` are not modelled.
- The rest of `mytag.ts` (running git to create and push the tag) is process I/O.
- Version.ParseVersion: `parseInt` gives unbounded naturals. JavaScript's number precision for very long digit runs is not modelled.
- Version.GenerateThenParse holds for a build of at most 999, a four-digit year, and a month and a day below 100. Build 1000 still matches the unanchored `\d{3}`, which reads only its first three digits, so the round trip gives build 100 (`GenerateThenParseOverflow`).
- MarkdownOps.Editor.InsertHeading: the level is a `nat`. JavaScript's `'#'.repeat` throws a `RangeError` on a negative level, and that error is not modelled.
- Layout: sizes are integers. The store clamps any JavaScript number, including the fractional widths and heights of drag events; fractions are not modelled.
- KnowledgeBaseParse.FileStem: the file name is what follows the last `/`. On Windows `Path::file_stem` also splits at `\`, which is not modelled.

## Findings

| source | as written | input that shows it | evidently intended | confidence | as-written member | corrected member |
|---|---|---|---|---|---|---|
| scripts/mygit.ts:11 | `runGit` trims the whole output of `git status --short`, so the first status line loses its leading space; `line.substring(3)` then cuts the first character of that line's path | status output ` M README.md` with no arguments gives `Auto-Summary: 修改: EADME.md` | each line keeps its two status columns (trim only the end of the output), giving `Auto-Summary: 修改: README.md` | not executed | GitSummary.AsWrittenDropsFirstCharacter | GitSummary.CorrectedKeepsFirstCharacter |
