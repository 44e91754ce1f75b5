/** Extension extraction and type detection of `src/utils/fileTypeDetector.ts`. */
module FileTypeDetector {
  import opened Wrappers
  import opened Text
  import opened FileTypes

  /**
   * `getFileExtension`: the text after the last `'.'` of the whole path,
   * lower-cased; the whole path, lower-cased, when it has no dot.
   */
  function GetFileExtension(path: string): (r: string)
    ensures |r| <= |path| && '.' !in r
    ensures r == ToLower(path[|path| - |r|..])
  {
    var last := AfterLast(path, '.');
    LowerAvoidsDot(last);
    ToLower(last)
  }

  /** Lower-casing neither makes nor removes dots. */
  lemma LowerAvoidsDot(s: string)
    ensures '.' in ToLower(s) <==> '.' in s
  {
    var t := ToLower(s);
    if '.' in t {
      var i :| 0 <= i < |t| && t[i] == '.';
      assert s[i] == '.';
    }
    if '.' in s {
      var i :| 0 <= i < |s| && s[i] == '.';
      assert t[i] == '.';
    }
  }

  /** The extension of `base.ext` is `ext` lower-cased, whatever `base` holds. */
  lemma ExtensionOfDotted(base: string, ext: string)
    requires '.' !in ext
    ensures GetFileExtension(base + "." + ext) == ToLower(ext)
  {
    var path := base + "." + ext;
    LastIndexOfUnique(path, '.', |base|);
    assert path[|base| + 1..] == ext;
  }

  /** Without a dot, the extension is the whole name lower-cased. */
  lemma ExtensionOfUndotted(name: string)
    requires '.' !in name
    ensures GetFileExtension(name) == ToLower(name)
  {
    LastIndexOfUnique(name, '.', -1);
  }

  /** The first type of `order` whose extensions contain `ext`, else `Unknown`. */
  function Lookup(order: seq<FileType>, ext: string): (r: FileType)
    ensures r == Unknown || (r in order && ext in Config(r).extensions)
    ensures forall u | u in order && ext in Config(u).extensions :: ext in Config(r).extensions
  {
    if order == [] then Unknown
    else if ext in Config(order[0]).extensions then order[0]
    else Lookup(order[1..], ext)
  }

  /** `detectFileType`: the table entry whose extensions include the extension, else `Unknown`. */
  function DetectFileType(path: string): FileType {
    Lookup(EntryOrder, GetFileExtension(path))
  }

  /** Some type lists `ext`. */
  predicate Known(ext: string) {
    exists t: FileType :: ext in Config(t).extensions
  }

  /** A path has type `t` exactly when `t` lists its extension, or no type does and `t` is `Unknown`. */
  lemma DetectFileTypeIff(path: string, t: FileType)
    ensures DetectFileType(path) == t <==>
      GetFileExtension(path) in Config(t).extensions || (t == Unknown && !Known(GetFileExtension(path)))
  {
    var ext := GetFileExtension(path);
    var r := Lookup(EntryOrder, ext);
    EntryOrderComplete(t);
    if ext in Config(t).extensions {
      assert ext in Config(r).extensions;
      if r != t {
        ExtensionsDisjoint(t, r, ext);
      }
    } else if r == t {
      assert r == Unknown;
      if Known(ext) {
        var u :| ext in Config(u).extensions;
        EntryOrderComplete(u);
      }
    } else if t == Unknown {
      assert ext in Config(r).extensions;
    }
  }

  /** `getFileTypeConfig`. */
  function GetFileTypeConfig(path: string): FileTypeConfig {
    Config(DetectFileType(path))
  }

  /** `isEditableFile`: the editor mode is edit or both. */
  function IsEditableFile(path: string): (r: bool)
    ensures r <==> DetectFileType(path) != Image && DetectFileType(path) != Unknown
  {
    EditorModeTable(DetectFileType(path));
    var mode := GetFileTypeConfig(path).editorMode;
    mode == Edit || mode == Both
  }

  /** `isPreviewableFile`: the configuration supports a preview. */
  function IsPreviewableFile(path: string): (r: bool)
    ensures r <==> DetectFileType(path) == Markdown || DetectFileType(path) == Image
  {
    PreviewTable(DetectFileType(path));
    GetFileTypeConfig(path).supportsPreview
  }

  /** The extension, and so the type, does not depend on letter case. */
  lemma ExtensionCaseInsensitive(path: string)
    ensures GetFileExtension(ToLower(path)) == GetFileExtension(path)
    ensures DetectFileType(ToLower(path)) == DetectFileType(path)
  {
    LowerExtension(path);
  }

  /** Lower-casing the path gives the same extension. */
  lemma LowerExtension(path: string)
    ensures GetFileExtension(ToLower(path)) == GetFileExtension(path)
  {
    LowerAfterLastDot(path);
    ToLowerIdempotent(AfterLast(path, '.'));
  }

  /** What follows the last dot of the lower-cased path is the lower case of what follows it in the path. */
  lemma LowerAfterLastDot(path: string)
    ensures AfterLast(ToLower(path), '.') == ToLower(AfterLast(path, '.'))
  {
    LowerKeepsLastDot(path);
    ToLowerSuffix(path, LastIndexOf(path, '.') + 1);
  }

  /** Lower-casing keeps the last dot where it was. */
  lemma LowerKeepsLastDot(path: string)
    ensures LastIndexOf(ToLower(path), '.') == LastIndexOf(path, '.')
  {
    var low := ToLower(path);
    var k := LastIndexOf(path, '.');
    forall i | k < i < |low| ensures low[i] != '.' {
      assert path[i] != '.';
    }
    LastIndexOfUnique(low, '.', k);
  }
}
