/**
 * Cases of `fileTypeDetector.test.ts`, stated for every base name rather
 * than the one the test picks.
 */
module FileTypeExamples {
  import opened Text
  import opened FileTypes
  import opened FileTypeDetector

  /** A string without capitals is its own lower case. */
  lemma LowerOfLower(s: string)
    requires forall c | c in s :: !('A' <= c <= 'Z')
    ensures ToLower(s) == s
  {
    var r := ToLower(s);
    forall i | 0 <= i < |s|
      ensures r[i] == s[i]
    {
      assert s[i] in s;
    }
  }

  /** `base.ext` has the type that lists `ext` in lower case. */
  lemma Detects(base: string, ext: string, t: FileType)
    requires '.' !in ext && ToLower(ext) in Config(t).extensions
    ensures DetectFileType(base + "." + ext) == t
  {
    ExtensionOfDotted(base, ext);
    DetectFileTypeIff(base + "." + ext, t);
  }

  /** `FILE.TS` is TypeScript; its extension is `ts`. */
  lemma UpperCaseDetected(base: string, path: string)
    requires path == base + ".TS"
    ensures GetFileExtension(path) == "ts" && DetectFileType(path) == TypeScript
  {
    var r := ToLower("TS");
    assert r[0] == 't' && r[1] == 's';
    assert r == "ts";
    assert path == base + "." + "TS";
    ExtensionOfDotted(base, "TS");
    Detects(base, "TS", TypeScript);
  }

  /** `file.test.ts`: only the text after the last dot counts. */
  lemma LastDotCounts(base: string, path: string)
    requires path == base + ".test.ts"
    ensures GetFileExtension(path) == "ts" && DetectFileType(path) == TypeScript
  {
    LowerOfLower("ts");
    assert path == (base + ".test") + "." + "ts";
    ExtensionOfDotted(base + ".test", "ts");
    Detects(base + ".test", "ts", TypeScript);
  }

  /** Every type's extensions are checked one by one against `ext`. */
  lemma Unlisted(ext: string)
    requires ext == "xyz" || ext == "noextension"
    ensures !Known(ext)
  {
    forall t: FileType
      ensures ext !in Config(t).extensions
    {
      match t
      case Markdown =>
      case TypeScript =>
      case JavaScript =>
      case Text =>
      case Json =>
      case Image =>
      case Unknown =>
    }
  }

  /** `file.xyz`: an extension no type lists is unknown. */
  lemma UnlistedExtension(base: string, path: string)
    requires path == base + ".xyz"
    ensures DetectFileType(path) == Unknown
  {
    LowerOfLower("xyz");
    Unlisted("xyz");
    assert path == base + "." + "xyz";
    ExtensionOfDotted(base, "xyz");
    DetectFileTypeIff(path, Unknown);
  }

  /** A name without a dot whose lower case no type lists is its own extension, and unknown. */
  lemma UndottedUnknown(name: string)
    requires '.' !in name && !Known(ToLower(name))
    ensures GetFileExtension(name) == ToLower(name)
    ensures DetectFileType(name) == Unknown
  {
    ExtensionOfUndotted(name);
    DetectFileTypeIff(name, Unknown);
  }

  /** `noextension`. */
  lemma NoExtension(name: string)
    requires name == "noextension"
    ensures GetFileExtension(name) == name
    ensures DetectFileType(name) == Unknown
  {
    LowerOfLower(name);
    Unlisted(name);
    assert '.' !in name by {
      forall i | 0 <= i < |name|
        ensures name[i] != '.'
      {
      }
    }
    UndottedUnknown(name);
  }
}
