/** The tag naming of `scripts/mytag.ts`: a version `Ver:…` is tagged `v…`. */
module GitTag {
  import opened Text
  import Version

  /** `convertToGitTag`: a leading `Ver:` becomes `v`; anything else is kept as it is. */
  function ConvertToGitTag(version: string): (r: string)
    ensures StartsWith(version, "Ver:") ==> r == "v" + version[4..]
    ensures !StartsWith(version, "Ver:") ==> r == version
  {
    if |version| >= 4 && version[..4] == "Ver:" then "v" + version[4..] else version
  }

  /** Only the prefix changes: whatever follows it is kept character for character. */
  lemma TagKeepsRest(version: string)
    ensures EndsWith(ConvertToGitTag(version), if StartsWith(version, "Ver:") then version[4..] else version)
    ensures |ConvertToGitTag(version)| == if StartsWith(version, "Ver:") then |version| - 3 else |version|
  {
    var r := ConvertToGitTag(version);
    if StartsWith(version, "Ver:") {
      assert r[|r| - |version[4..]|..] == version[4..];
    } else {
      assert r[|r| - |version|..] == version;
    }
  }

  /** A tag is never converted again: converting twice is converting once. */
  lemma ConvertIdempotent(version: string)
    ensures ConvertToGitTag(ConvertToGitTag(version)) == ConvertToGitTag(version)
  {
    var r := ConvertToGitTag(version);
    if StartsWith(version, "Ver:") {
      assert r[0] == 'v';
    }
  }

  /** Two versions that both carry the prefix get the same tag only when they are the same version. */
  lemma ConvertInjectiveOnVersions(v: string, w: string)
    requires StartsWith(v, "Ver:") && StartsWith(w, "Ver:")
    requires ConvertToGitTag(v) == ConvertToGitTag(w)
    ensures v == w
  {
    assert v[4..] == ConvertToGitTag(v)[1..];
    assert w[4..] == ConvertToGitTag(w)[1..];
    assert v == v[..4] + v[4..];
    assert w == w[..4] + w[4..];
  }

  /** Every version the upgrade script writes carries the prefix, so its tag is `v` and the fields. */
  lemma TagOfGenerated(current: string, today: Version.Day)
    requires Version.GenerateNewVersion(current, today).Ok?
    ensures var s := Version.GenerateNewVersion(current, today).value;
      StartsWith(s, "Ver:") && ConvertToGitTag(s) == "v" + s[4..]
  {
    var p := Version.ParseVersion(current).value;
    var dateStr := Version.DateString(today);
    Version.FormatPrefix(p.major, p.minor, dateStr, Version.NextBuild(p, dateStr));
  }

  /** The example of the script's own documentation. */
  lemma DocumentedExample()
    ensures ConvertToGitTag("Ver:1.0.20260206.007") == "v1.0.20260206.007"
  {
  }
}
