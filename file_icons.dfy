/** Icon, colour and language lookups of `src/utils/fileIcons.ts`, all read from the detected type. */
module FileIcons {
  import opened Wrappers
  import opened FileTypes
  import opened FileTypeDetector

  /** `getFileIcon`. */
  function GetFileIcon(fileName: string): (r: string)
    ensures r == Config(DetectFileType(fileName)).icon
  {
    GetFileTypeConfig(fileName).icon
  }

  /** `getFileIconColor`. */
  function GetFileIconColor(fileName: string): (r: string)
    ensures r == Config(DetectFileType(fileName)).color
  {
    GetFileTypeConfig(fileName).color
  }

  /** `getFolderIcon`. */
  function GetFolderIcon(isOpen: bool): (r: string)
    ensures r == "FolderOpen" <==> isOpen
  {
    if isOpen then "FolderOpen" else "Folder"
  }

  /** `getEditorLanguage`: `None` stands for `undefined`. */
  function GetEditorLanguage(fileName: string): (r: Option<string>)
    ensures r == Config(DetectFileType(fileName)).language
  {
    GetFileTypeConfig(fileName).language
  }

  /** `isCodeFile`. */
  function IsCodeFile(fileName: string): bool {
    var t := DetectFileType(fileName);
    t == TypeScript || t == JavaScript || t == Json
  }

  /** `isTextFile`. */
  function IsTextFile(fileName: string): bool {
    TextType(DetectFileType(fileName))
  }

  /** The icon names a family of types: code, text, JSON, image, or anything else. */
  lemma IconFamilies(fileName: string)
    ensures var t := DetectFileType(fileName);
      && (GetFileIcon(fileName) == "FileCode" <==> t == TypeScript || t == JavaScript)
      && (GetFileIcon(fileName) == "FileText" <==> t == Markdown || t == Text)
      && (GetFileIcon(fileName) == "FileJson" <==> t == Json)
      && (GetFileIcon(fileName) == "Image" <==> t == Image)
      && (GetFileIcon(fileName) == "File" <==> t == Unknown)
  {
    match DetectFileType(fileName)
    case Markdown =>
    case TypeScript =>
    case JavaScript =>
    case Text =>
    case Json =>
    case Image =>
    case Unknown =>
  }

  /** Each type has a colour of its own, so the colour tells the type. */
  lemma ColorIdentifiesType(a: string, b: string)
    ensures GetFileIconColor(a) == GetFileIconColor(b) <==> DetectFileType(a) == DetectFileType(b)
  {
    var t, u := DetectFileType(a), DetectFileType(b);
    if t != u {
      ColorsDistinct(t, u);
    }
  }

  /** No two types share a Tailwind colour class, though both blues, both yellows and both grays differ only in shade. */
  lemma ColorsDistinct(t: FileType, u: FileType)
    requires t != u
    ensures Config(t).color != Config(u).color
  {
    var c, d := Config(t).color, Config(u).color;
    assert |c| != |d| || c[5] != d[5] || c[|c| - 3] != d[|d| - 3];
  }

  /** The types `isTextFile` lists. */
  predicate TextType(t: FileType) {
    t == Markdown || t == TypeScript || t == JavaScript || t == Text || t == Json
  }

  lemma TextTypesEditable(t: FileType)
    ensures TextType(t) <==> t != Image && t != Unknown
  {
  }

  /** Text files are exactly the editable ones. */
  lemma TextIffEditable(fileName: string)
    ensures IsTextFile(fileName) <==> IsEditableFile(fileName)
  {
    var t := DetectFileType(fileName);
    assert IsEditableFile(fileName) == (t != Image && t != Unknown);
    TextTypesEditable(t);
  }

  /**
   * Code files are text files that have an editor language and are not
   * Markdown; every code file is a text file, and Markdown is a text file
   * that is not code.
   */
  lemma CodeFilesAreText(fileName: string)
    ensures IsCodeFile(fileName) ==> IsTextFile(fileName)
    ensures IsCodeFile(fileName) <==>
      IsTextFile(fileName) && GetEditorLanguage(fileName).Some? && DetectFileType(fileName) != Markdown
  {
    var t := DetectFileType(fileName);
    LanguageTable(t);
    if IsCodeFile(fileName) {
      assert t == TypeScript || t == JavaScript || t == Json;
    } else {
      assert t == Markdown || t == Text || t == Image || t == Unknown;
    }
  }
}
