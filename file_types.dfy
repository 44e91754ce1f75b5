/** The file-type table of `src/types/fileTypes.ts`. */
module FileTypes {
  import opened Wrappers

  datatype FileType = Markdown | TypeScript | JavaScript | Text | Image | Json | Unknown

  datatype EditorMode = Preview | Edit | Both

  datatype FileTypeConfig = FileTypeConfig(
    extensions: seq<string>, icon: string, color: string,
    editorMode: EditorMode, language: Option<string>, supportsPreview: bool)

  /** `FILE_TYPE_CONFIGS`. */
  function Config(t: FileType): FileTypeConfig {
    match t
    case Markdown => FileTypeConfig(["md", "markdown"], "FileText", "text-blue-400", Both, Some("markdown"), true)
    case TypeScript => FileTypeConfig(["ts", "tsx"], "FileCode", "text-blue-500", Edit, Some("typescript"), false)
    case JavaScript => FileTypeConfig(["js", "jsx"], "FileCode", "text-yellow-500", Edit, Some("javascript"), false)
    case Text => FileTypeConfig(["txt", "log"], "FileText", "text-gray-400", Edit, None, false)
    case Json => FileTypeConfig(["json"], "FileJson", "text-yellow-400", Edit, Some("json"), false)
    case Image => FileTypeConfig(["png", "jpg", "jpeg", "gif", "svg", "webp", "bmp"], "Image", "text-green-400", Preview, None, true)
    case Unknown => FileTypeConfig([], "File", "text-gray-500", Preview, None, false)
  }

  /** The order in which `Object.entries` lists the table: the order of its keys in the literal. */
  const EntryOrder: seq<FileType> := [Markdown, TypeScript, JavaScript, Text, Json, Image, Unknown]

  /** Every type is listed once. */
  lemma EntryOrderComplete(t: FileType)
    ensures t in EntryOrder
    ensures forall i, j | 0 <= i < j < |EntryOrder| :: EntryOrder[i] != EntryOrder[j]
  {
  }

  /** No extension belongs to two types, so the search order does not matter. */
  lemma ExtensionsDisjoint(t: FileType, u: FileType, ext: string)
    requires t != u && ext in Config(t).extensions
    ensures ext !in Config(u).extensions
  {
  }

  lemma UnknownHasNoExtensions()
    ensures Config(Unknown).extensions == []
  {
  }

  /** Only Markdown and images can be previewed. */
  lemma PreviewTable(t: FileType)
    ensures Config(t).supportsPreview <==> t == Markdown || t == Image
  {
  }

  /** Markdown is edited with a preview, images and unknown files are only shown, the rest only edited. */
  lemma EditorModeTable(t: FileType)
    ensures Config(t).editorMode == Both <==> t == Markdown
    ensures Config(t).editorMode == Preview <==> t == Image || t == Unknown
    ensures Config(t).editorMode == Edit <==> t == TypeScript || t == JavaScript || t == Text || t == Json
  {
  }

  /** An editor language is set for Markdown, TypeScript, JavaScript and JSON only. */
  lemma LanguageTable(t: FileType)
    ensures Config(t).language.Some? <==> t == Markdown || t == TypeScript || t == JavaScript || t == Json
  {
  }
}
