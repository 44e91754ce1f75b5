/**
 * The format dispatch of `export_markdown` in `src-tauri/src/commands.rs`.
 * The Markdown renderer is a parameter, the page templates are reduced to
 * which of the two pages is written, and the file write's outcome is a
 * parameter.
 */
module ExportMarkdown {
  import opened Wrappers

  /** The two pages the command can write: a styled HTML page, or HTML that Word opens. */
  datatype PageKind = HtmlPage | WordPage

  /** What would be written to the output path: the page kind wrapped around the body. */
  datatype Page = Page(kind: PageKind, body: string)

  /** The page kind of a format the command supports. */
  function PageKindOf(format: string): Option<PageKind> {
    if format == "html" then Some(HtmlPage)
    else if format == "docx" || format == "doc" then Some(WordPage)
    else None
  }

  /** The message for a format without a backend conversion. */
  function UnsupportedMessage(format: string): string {
    "目前后端暂不支持 " + format + " 格式的自动转换，PDF 导出请使用预览页面的打印按钮并选择'另存为 PDF'。"
  }

  /** The body placed in the page: the content itself when it is already HTML, else its rendering. */
  function Body(content: string, isContentHtml: Option<bool>, toHtml: string -> string): (r: string)
    ensures isContentHtml == Some(true) ==> r == content
    ensures isContentHtml != Some(true) ==> r == toHtml(content)
  {
    if isContentHtml.GetOr(false) then content else toHtml(content)
  }

  /**
   * `export_markdown`: the page for a supported format, or the write's
   * error (`writeError`), or the unsupported-format message.
   */
  function Export(content: string, format: string, isContentHtml: Option<bool>,
                  toHtml: string -> string, writeError: Option<string>): (r: Result<Page>)
    ensures r.Ok? <==> (format == "html" || format == "docx" || format == "doc") && writeError.None?
    ensures r.Ok? ==> r.value.body == Body(content, isContentHtml, toHtml)
    ensures r.Ok? ==> (r.value.kind == HtmlPage <==> format == "html")
    ensures !(format == "html" || format == "docx" || format == "doc") ==> r == Err(UnsupportedMessage(format))
  {
    var body := Body(content, isContentHtml, toHtml);
    match PageKindOf(format)
    case None => Err(UnsupportedMessage(format))
    case Some(kind) => if writeError.Some? then Err(writeError.value) else Ok(Page(kind, body))
  }

  /** `"doc"` and `"docx"` write the same page. */
  lemma DocAndDocxAgree(content: string, isContentHtml: Option<bool>, toHtml: string -> string, writeError: Option<string>)
    ensures Export(content, "doc", isContentHtml, toHtml, writeError) == Export(content, "docx", isContentHtml, toHtml, writeError)
  {
  }

  /** A missing flag reads as `false`: the content is rendered from Markdown. */
  lemma MissingFlagRenders(content: string, format: string, toHtml: string -> string, writeError: Option<string>)
    ensures Export(content, format, None, toHtml, writeError) == Export(content, format, Some(false), toHtml, writeError)
  {
  }

  /** The error message names the rejected format and points to printing for PDF. */
  lemma UnsupportedNamesFormat(content: string, format: string, isContentHtml: Option<bool>,
                               toHtml: string -> string, writeError: Option<string>)
    requires format != "html" && format != "docx" && format != "doc"
    ensures Export(content, format, isContentHtml, toHtml, writeError).Err?
    ensures var msg := Export(content, format, isContentHtml, toHtml, writeError).error;
      msg[|"目前后端暂不支持 "|..|"目前后端暂不支持 "| + |format|] == format
  {
  }
}
