/**
 * The version strings of `scripts/upgrade-version.ts`:
 * `Ver:<major>.<minor>.<yyyymmdd>.<build>`, how they are read back, how the
 * next one is made from the current one and today's date, and the
 * `version.json` record that an upgrade rewrites.
 */
module Version {
  import opened Wrappers
  import opened Text

  // ---------------------------------------------------------------------
  // Decimal numerals
  // ---------------------------------------------------------------------

  predicate AllDigits(s: string) {
    forall i | 0 <= i < |s| :: IsDigit(s[i])
  }

  function DigitChar(d: nat): (c: char)
    requires d < 10
    ensures IsDigit(c) && c as int - '0' as int == d
  {
    ('0' as int + d) as char
  }

  /** `n.toString()`: the decimal numeral of `n`, without leading zeros. */
  function Show(n: nat): (r: string)
    ensures |r| >= 1 && AllDigits(r)
  {
    if n < 10 then [DigitChar(n)] else Show(n / 10) + [DigitChar(n % 10)]
  }

  /** `parseInt` of a digit string: its decimal value, leading zeros allowed. */
  function Value(s: string): nat
    requires AllDigits(s)
  {
    if s == [] then 0
    else
      assert IsDigit(s[|s| - 1]);
      Value(s[..|s| - 1]) * 10 + (s[|s| - 1] as int - '0' as int)
  }

  /** `padStart(n, c)`: `c` repeated in front until the length is at least `n`. */
  function PadStart(s: string, n: nat, c: char): (r: string)
    ensures |r| == if |s| >= n then |s| else n
    ensures EndsWith(r, s)
  {
    if |s| >= n then s
    else
      RepeatLength([c], n - |s|);
      Repeat([c], n - |s|) + s
  }

  /** Reading back a numeral gives the number. */
  lemma {:induction false} ValueShow(n: nat)
    ensures Value(Show(n)) == n
  {
    if n >= 10 {
      ValueShow(n / 10);
      var s := Show(n);
      assert s[..|s| - 1] == Show(n / 10);
    }
  }

  lemma {:induction false} ShowLength(n: nat)
    ensures n < 10 ==> |Show(n)| == 1
    ensures 10 <= n < 100 ==> |Show(n)| == 2
    ensures 100 <= n < 1000 ==> |Show(n)| == 3
    ensures 1000 <= n < 10000 ==> |Show(n)| == 4
  {
    if n >= 10 {
      ShowLength(n / 10);
    }
  }

  /** Zeros in front do not change the value. */
  lemma {:induction false} ValueLeadingZeros(k: nat, s: string)
    requires AllDigits(s)
    ensures AllDigits(Repeat("0", k) + s)
    ensures Value(Repeat("0", k) + s) == Value(s)
    decreases |s|
  {
    var z := Repeat("0", k);
    RepeatLength("0", k);
    assert forall i | 0 <= i < |z| :: z[i] == '0' by {
      RepeatZeros(k);
    }
    var t := z + s;
    assert AllDigits(t) by {
      forall i | 0 <= i < |t| ensures IsDigit(t[i]) {
        if i < |z| {
          assert t[i] == z[i];
        } else {
          assert t[i] == s[i - |z|];
        }
      }
    }
    if s == [] {
      assert t == z;
      ZerosValue(k);
    } else {
      ValueLeadingZeros(k, s[..|s| - 1]);
      assert t[..|t| - 1] == z + s[..|s| - 1];
    }
  }

  lemma {:induction false} RepeatZeros(k: nat)
    ensures forall i | 0 <= i < |Repeat("0", k)| :: Repeat("0", k)[i] == '0'
  {
    if k > 0 {
      RepeatZeros(k - 1);
    }
  }

  lemma {:induction false} ZerosValue(k: nat)
    ensures AllDigits(Repeat("0", k)) && Value(Repeat("0", k)) == 0
  {
    RepeatZeros(k);
    if k > 0 {
      ZerosValue(k - 1);
      RepeatSnoc("0", k - 1);
      var z := Repeat("0", k);
      assert z[..|z| - 1] == Repeat("0", k - 1);
    }
  }

  /** A number below 1000 padded to three digits reads back as itself. */
  lemma PaddedBuild(n: nat)
    requires n < 1000
    ensures var p := PadStart(Show(n), 3, '0'); |p| == 3 && AllDigits(p) && Value(p) == n
  {
    ShowLength(n);
    ValueShow(n);
    ValueLeadingZeros(3 - |Show(n)|, Show(n));
  }

  // ---------------------------------------------------------------------
  // parseVersion
  // ---------------------------------------------------------------------

  datatype ParsedVersion = ParsedVersion(major: nat, minor: nat, date: string, build: nat)

  /** The length of the run of digits starting at `i`. */
  function DigitRun(s: string, i: nat): (k: nat)
    requires i <= |s|
    ensures i + k <= |s| && AllDigits(s[i..i + k])
    ensures i + k < |s| ==> !IsDigit(s[i + k])
    decreases |s| - i
  {
    if i < |s| && IsDigit(s[i]) then
      var k := DigitRun(s, i + 1);
      assert s[i..i + 1 + k] == [s[i]] + s[i + 1..i + 1 + k];
      1 + k
    else 0
  }

  /** A non-empty run of digits starting at `a` and ended by a `'.'`: the position of the dot. */
  function DottedRun(s: string, a: nat): (r: Option<nat>)
    requires a <= |s|
    ensures r.Some? ==> a < r.value < |s| && s[r.value] == '.' && AllDigits(s[a..r.value])
  {
    var n := DigitRun(s, a);
    if n == 0 || a + n >= |s| || s[a + n] != '.' then None else Some(a + n)
  }

  /** The date and build after the second dot `c - 1`: eight digits, a dot, three digits. */
  function DateAndBuild(s: string, c: nat): (r: Option<(string, nat)>)
    requires c <= |s|
    ensures r.Some? ==> |r.value.0| == 8 && AllDigits(r.value.0) && r.value.1 < 1000
  {
    if c + 12 <= |s| && AllDigits(s[c..c + 8]) && s[c + 8] == '.' && AllDigits(s[c + 9..c + 12]) then
      BuildBound(s[c + 9..c + 12]);
      Some((s[c..c + 8], Value(s[c + 9..c + 12])))
    else None
  }

  /**
   * The match of `Ver:(\d+)\.(\d+)\.(\d{8})\.(\d{3})` starting at `i`. A
   * `\d+` followed by `\.` can only end where the digit run ends, so the
   * match at a given start is unique.
   */
  function MatchAt(s: string, i: nat): (r: Option<ParsedVersion>)
    requires i <= |s|
    ensures r.Some? ==> |r.value.date| == 8 && AllDigits(r.value.date) && r.value.build < 1000
  {
    if !(i + 4 <= |s| && s[i..i + 4] == "Ver:") then None else Fields(s, i + 4)
  }

  /** The four fields after `Ver:`, which ends at `a`. */
  function Fields(s: string, a: nat): (r: Option<ParsedVersion>)
    requires a <= |s|
    ensures r.Some? ==> |r.value.date| == 8 && AllDigits(r.value.date) && r.value.build < 1000
  {
    var major := DottedRun(s, a);
    if major.None? then None else MinorAndRest(s, a, major.value)
  }

  /** The fields after the major number `s[a..e1]` and its dot. */
  function MinorAndRest(s: string, a: nat, e1: nat): (r: Option<ParsedVersion>)
    requires a < e1 < |s| && AllDigits(s[a..e1])
    ensures r.Some? ==> |r.value.date| == 8 && AllDigits(r.value.date) && r.value.build < 1000
  {
    var minor := DottedRun(s, e1 + 1);
    if minor.None? then None
    else
      var rest := DateAndBuild(s, minor.value + 1);
      if rest.None? then None
      else Some(ParsedVersion(Value(s[a..e1]), Value(s[e1 + 1..minor.value]), rest.value.0, rest.value.1))
  }

  lemma BuildBound(s: string)
    requires |s| == 3 && AllDigits(s)
    ensures Value(s) < 1000
  {
    var s2 := s[..2];
    var s1 := s2[..1];
    assert s1[..0] == [];
    assert Value(s1) < 10;
    assert Value(s2) < 100;
  }

  /** The leftmost match at or after `i`. */
  function FirstMatch(s: string, i: nat): Result<ParsedVersion>
    requires i <= |s|
    decreases |s| - i
  {
    match MatchAt(s, i)
    case Some(p) => Ok(p)
    case None => if i == |s| then Err("Invalid version format: " + s) else FirstMatch(s, i + 1)
  }

  /** No match starts in `[i, k)`. */
  predicate NoMatchBetween(s: string, i: nat, k: nat)
    requires k <= |s|
  {
    forall j | i <= j < k :: MatchAt(s, j).None?
  }

  /** `FirstMatch` finds the leftmost match at or after `i`. */
  lemma {:induction false} FirstMatchLeftmost(s: string, i: nat)
    requires i <= |s|
    ensures FirstMatch(s, i).Ok? ==>
      exists k | i <= k <= |s| :: MatchAt(s, k) == Some(FirstMatch(s, i).value) && NoMatchBetween(s, i, k)
    decreases |s| - i
  {
    if MatchAt(s, i).None? && i < |s| {
      FirstMatchLeftmost(s, i + 1);
      if FirstMatch(s, i).Ok? {
        var k :| i + 1 <= k <= |s| && MatchAt(s, k) == Some(FirstMatch(s, i).value) && NoMatchBetween(s, i + 1, k);
        assert NoMatchBetween(s, i, k);
      }
    } else if MatchAt(s, i).Some? {
      assert MatchAt(s, i) == Some(FirstMatch(s, i).value) && NoMatchBetween(s, i, i);
    }
  }

  /** `FirstMatch` fails exactly when there is no match at or after `i`, and then with the source's message. */
  lemma {:induction false} FirstMatchNone(s: string, i: nat)
    requires i <= |s|
    ensures FirstMatch(s, i).Err? <==> forall k | i <= k <= |s| :: MatchAt(s, k).None?
    ensures FirstMatch(s, i).Err? ==> FirstMatch(s, i).error == "Invalid version format: " + s
    decreases |s| - i
  {
    if MatchAt(s, i).None? && i < |s| {
      FirstMatchNone(s, i + 1);
    }
  }

  /**
   * `parseVersion`: the fields of the leftmost occurrence anywhere in the
   * string; an error (the source throws) when there is none.
   */
  function ParseVersion(version: string): (r: Result<ParsedVersion>)
    ensures r.Ok? ==> |r.value.date| == 8 && AllDigits(r.value.date) && r.value.build < 1000
    ensures r.Ok? ==> exists k | 0 <= k <= |version| :: (MatchAt(version, k) == Some(r.value) &&
      forall j | 0 <= j < k :: MatchAt(version, j).None?)
    ensures r.Err? <==> forall k | 0 <= k <= |version| :: MatchAt(version, k).None?
    ensures r.Err? ==> r.error == "Invalid version format: " + version
  {
    FirstMatchLeftmost(version, 0);
    FirstMatchNone(version, 0);
    FirstRange(version, 0);
    FirstMatch(version, 0)
  }

  /** A version found by `FirstMatch` is a version `MatchAt` produced. */
  lemma {:induction false} FirstRange(s: string, i: nat)
    requires i <= |s|
    ensures FirstMatch(s, i).Ok? ==> (|FirstMatch(s, i).value.date| == 8 &&
      AllDigits(FirstMatch(s, i).value.date) && FirstMatch(s, i).value.build < 1000)
    decreases |s| - i
  {
    if MatchAt(s, i).None? && i < |s| {
      FirstRange(s, i + 1);
    }
  }

  // ---------------------------------------------------------------------
  // generateNewVersion
  // ---------------------------------------------------------------------

  /** Today's local date as `new Date()` reports it: full year, month 1-12, day 1-31. */
  datatype Day = Day(year: nat, month: nat, day: nat)

  /** The year, then the month and the day padded to two digits. */
  function DateString(today: Day): string {
    Show(today.year) + PadStart(Show(today.month), 2, '0') + PadStart(Show(today.day), 2, '0')
  }

  /** The build counts up within a day and starts again at 1 on a new day. */
  function NextBuild(parsed: ParsedVersion, dateStr: string): (n: nat)
    ensures parsed.date == dateStr ==> n == parsed.build + 1
    ensures parsed.date != dateStr ==> n == 1
  {
    if parsed.date == dateStr then parsed.build + 1 else 1
  }

  function Format(major: nat, minor: nat, dateStr: string, build: nat): string {
    "Ver:" + Show(major) + "." + Show(minor) + "." + dateStr + "." + PadStart(Show(build), 3, '0')
  }

  /** A formatted version starts with `Ver:`. */
  lemma FormatPrefix(major: nat, minor: nat, dateStr: string, build: nat)
    ensures StartsWith(Format(major, minor, dateStr, build), "Ver:")
  {
    var s := Format(major, minor, dateStr, build);
    PrefixOfAppend("Ver:", Show(major), "." + Show(minor) + "." + dateStr + "." + PadStart(Show(build), 3, '0'), s);
  }

  lemma PrefixOfAppend(p: string, x: string, rest: string, s: string)
    requires s == p + x + rest
    ensures StartsWith(s, p)
  {
    assert s[..|p|] == p;
  }

  /** `generateNewVersion`: same major and minor, today's date, the next build. */
  function GenerateNewVersion(current: string, today: Day): (r: Result<string>)
    ensures r.Err? <==> ParseVersion(current).Err?
    ensures r.Err? ==> r == Err(ParseVersion(current).error)
    ensures r.Ok? ==> var p := ParseVersion(current).value;
      r.value == Format(p.major, p.minor, DateString(today), NextBuild(p, DateString(today)))
  {
    match ParseVersion(current)
    case Err(e) => Err(e)
    case Ok(p) =>
      var dateStr := DateString(today);
      Ok(Format(p.major, p.minor, dateStr, NextBuild(p, dateStr)))
  }

  /** A date with a four-digit year is eight digits. */
  lemma DateStringDigits(today: Day)
    requires 1000 <= today.year < 10000 && today.month < 100 && today.day < 100
    ensures |DateString(today)| == 8 && AllDigits(DateString(today))
  {
    ShowLength(today.year);
    ShowLength(today.month);
    ShowLength(today.day);
    PadDigits(Show(today.month), 2);
    PadDigits(Show(today.day), 2);
    var y, m, d := Show(today.year), PadStart(Show(today.month), 2, '0'), PadStart(Show(today.day), 2, '0');
    DigitsAppend(y, m);
    DigitsAppend(y + m, d);
  }

  lemma PadDigits(s: string, n: nat)
    requires AllDigits(s)
    ensures AllDigits(PadStart(s, n, '0'))
  {
    if |s| < n {
      ValueLeadingZeros(n - |s|, s);
    }
  }

  lemma DigitsAppend(a: string, b: string)
    requires AllDigits(a) && AllDigits(b)
    ensures AllDigits(a + b)
  {
    forall i | 0 <= i < |a + b| ensures IsDigit((a + b)[i]) {
      if i < |a| {
        assert (a + b)[i] == a[i];
      } else {
        assert (a + b)[i] == b[i - |a|];
      }
    }
  }

  /** The run of digits that a non-digit ends is exactly as long as the digits. */
  lemma {:induction false} DigitRunExact(s: string, i: nat, k: nat)
    requires i + k < |s| && AllDigits(s[i..i + k]) && !IsDigit(s[i + k])
    ensures DigitRun(s, i) == k
    decreases k
  {
    if k > 0 {
      assert s[i] == s[i..i + k][0];
      assert s[i + 1..i + k] == s[i..i + k][1..];
      DigitRunExact(s, i + 1, k - 1);
    }
  }

  /** Digits ended by a dot are a dotted run ending at that dot. */
  lemma DottedRunExact(s: string, a: nat, k: nat)
    requires k >= 1 && a + k < |s| && AllDigits(s[a..a + k]) && s[a + k] == '.'
    ensures DottedRun(s, a) == Some(a + k)
  {
    DigitRunExact(s, a, k);
  }

  /**
   * The version a formatted string starts with is matched at its beginning;
   * the unanchored `\d{3}` reads only the first three digits of the build.
   */
  lemma MatchFormatted(a: string, b: string, d: string, e: string)
    requires |a| >= 1 && |b| >= 1 && AllDigits(a) && AllDigits(b)
    requires |d| == 8 && AllDigits(d) && |e| >= 3 && AllDigits(e)
    ensures MatchAt("Ver:" + a + "." + b + "." + d + "." + e, 0) == Some(ParsedVersion(Value(a), Value(b), d, Value(e[..3])))
  {
    FormatLaid(a, b, d, e);
    MatchLaid("Ver:" + a + "." + b + "." + d + "." + e, a, b, d, e);
  }

  /** `s` is `Ver:`, the digits `a`, a dot, the digits `b`, a dot, the date `d`, a dot and the build `e`. */
  predicate Laid(s: string, a: string, b: string, d: string, e: string) {
    && |s| == 4 + |a| + 1 + |b| + 1 + |d| + 1 + |e| && s[0..4] == "Ver:"
    && s[4..4 + |a|] == a && s[4 + |a|] == '.'
    && s[5 + |a|..5 + |a| + |b|] == b && s[5 + |a| + |b|] == '.'
    && s[6 + |a| + |b|..6 + |a| + |b| + |d|] == d && s[6 + |a| + |b| + |d|] == '.'
    && s[7 + |a| + |b| + |d|..] == e
  }

  lemma FormatLaid(a: string, b: string, d: string, e: string)
    ensures Laid("Ver:" + a + "." + b + "." + d + "." + e, a, b, d, e)
  {
    var p3 := "Ver:" + a + ".";
    var p5 := p3 + b + ".";
    var s := p5 + d + "." + e;
    Piece("Ver:", a, ".", s, b + "." + d + "." + e);
    Piece(p3, b, ".", s, d + "." + e);
    Piece(p5, d, ".", s, e);
    assert s[0..4] == "Ver:";
  }

  /** The match of a string laid out as a version. */
  lemma MatchLaid(s: string, a: string, b: string, d: string, e: string)
    requires |a| >= 1 && |b| >= 1 && AllDigits(a) && AllDigits(b)
    requires |d| == 8 && AllDigits(d) && |e| >= 3 && AllDigits(e)
    requires Laid(s, a, b, d, e)
    ensures MatchAt(s, 0) == Some(ParsedVersion(Value(a), Value(b), d, Value(e[..3])))
  {
    var e1 := 4 + |a|;
    var e2 := e1 + 1 + |b|;
    MatchPieces(s, a, b, d, e, e1, e2);
    var m := Some(ParsedVersion(Value(a), Value(b), d, Value(e[..3])));
    MinorAndRestOf(s, a, b, e1, e2, d, Value(e[..3]));
    FieldsOf(s, e1, m);
    MatchAtOf(s, m);
  }

  lemma MatchAtOf(s: string, m: Option<ParsedVersion>)
    requires |s| >= 4 && s[0..4] == "Ver:" && Fields(s, 4) == m
    ensures MatchAt(s, 0) == m
  {
  }

  lemma FieldsOf(s: string, e1: nat, m: Option<ParsedVersion>)
    requires 4 < e1 < |s| && DottedRun(s, 4) == Some(e1) && MinorAndRest(s, 4, e1) == m
    ensures Fields(s, 4) == m
  {
  }

  lemma MinorAndRestOf(s: string, a: string, b: string, e1: nat, e2: nat, date: string, build: nat)
    requires 4 < e1 < e2 < |s| && s[4..e1] == a && s[e1 + 1..e2] == b && AllDigits(a) && AllDigits(b)
    requires DottedRun(s, e1 + 1) == Some(e2) && DateAndBuild(s, e2 + 1) == Some((date, build))
    ensures MinorAndRest(s, 4, e1) == Some(ParsedVersion(Value(a), Value(b), date, build))
  {
  }

  /** The pieces of a string laid out as a version, as the match reads them. */
  lemma MatchPieces(s: string, a: string, b: string, d: string, e: string, e1: nat, e2: nat)
    requires |a| >= 1 && |b| >= 1 && AllDigits(a) && AllDigits(b)
    requires |d| == 8 && AllDigits(d) && |e| >= 3 && AllDigits(e)
    requires Laid(s, a, b, d, e) && e1 == 4 + |a| && e2 == e1 + 1 + |b|
    ensures 4 < e1 < e2 < |s|
    ensures DottedRun(s, 4) == Some(e1) && DottedRun(s, e1 + 1) == Some(e2)
    ensures DateAndBuild(s, e2 + 1) == Some((d, Value(e[..3])))
    ensures s[4..e1] == a && s[e1 + 1..e2] == b
  {
    DottedRunExact(s, 4, |a|);
    DottedRunExact(s, e1 + 1, |b|);
    DateAndBuildOf(s, e2 + 1, d, e);
  }

  /** Where a piece and the character after it sit in a string that starts with them. */
  lemma Piece(p: string, x: string, sep: string, s: string, rest: string)
    requires |sep| == 1 && s == p + x + sep + rest
    ensures s[|p|..|p| + |x|] == x && s[|p| + |x|] == sep[0] && s[|p| + |x| + 1..] == rest
  {
  }

  lemma DateAndBuildOf(s: string, c: nat, d: string, e: string)
    requires c + 12 <= |s| && s[c..c + 8] == d && s[c + 8] == '.' && s[c + 9..] == e
    requires AllDigits(d) && AllDigits(e)
    ensures DateAndBuild(s, c) == Some((d, Value(e[..3])))
  {
    assert s[c + 9..c + 12] == e[..3];
  }

  /**
   * Round trip: reading back a new version gives the old major and minor,
   * today's date and the next build, as long as the build fits its three
   * digits.
   */
  lemma GenerateThenParse(current: string, today: Day)
    requires ParseVersion(current).Ok?
    requires 1000 <= today.year < 10000 && today.month < 100 && today.day < 100
    requires NextBuild(ParseVersion(current).value, DateString(today)) < 1000
    ensures var p := ParseVersion(current).value;
      var dateStr := DateString(today);
      ParseVersion(GenerateNewVersion(current, today).value) ==
        Ok(ParsedVersion(p.major, p.minor, dateStr, NextBuild(p, dateStr)))
  {
    var p := ParseVersion(current).value;
    var dateStr := DateString(today);
    var n := NextBuild(p, dateStr);
    DateStringDigits(today);
    PaddedBuild(n);
    ValueShow(p.major);
    ValueShow(p.minor);
    var e := PadStart(Show(n), 3, '0');
    assert e[..3] == e;
    MatchFormatted(Show(p.major), Show(p.minor), dateStr, e);
  }

  /**
   * The round trip breaks after build 999 of a day: the next version ends in
   * `.1000`, and reading it back takes the first three digits, build 100.
   */
  lemma GenerateThenParseOverflow(current: string, today: Day)
    requires ParseVersion(current).Ok?
    requires 1000 <= today.year < 10000 && today.month < 100 && today.day < 100
    requires NextBuild(ParseVersion(current).value, DateString(today)) >= 1000
    ensures NextBuild(ParseVersion(current).value, DateString(today)) == 1000
    ensures var p := ParseVersion(current).value;
      ParseVersion(GenerateNewVersion(current, today).value) ==
        Ok(ParsedVersion(p.major, p.minor, DateString(today), 100))
  {
    var p := ParseVersion(current).value;
    var dateStr := DateString(today);
    DateStringDigits(today);
    ValueShow(p.major);
    ValueShow(p.minor);
    var e := PadStart(Show(1000), 3, '0');
    BuildThousand();
    HundredValue();
    assert e[..3] == "100";
    MatchFormatted(Show(p.major), Show(p.minor), dateStr, e);
  }

  /** Build 1000 is written with all four of its digits. */
  lemma BuildThousand()
    ensures PadStart(Show(1000), 3, '0') == "1000"
  {
    assert Show(1) == "1" && Show(10) == "10" && Show(100) == "100" && Show(1000) == "1000";
  }

  /** The digits `100` read as one hundred. */
  lemma HundredValue()
    ensures AllDigits("100") && Value("100") == 100
  {
    assert AllDigits("1") && AllDigits("10");
    assert Value("1") == 1 && Value("10") == 10;
  }

  // ---------------------------------------------------------------------
  // upgradeVersion
  // ---------------------------------------------------------------------

  datatype ChangelogEntry = ChangelogEntry(version: string, date: string, changes: string)

  /** The contents of `version.json`. */
  class VersionFile {
    var version: string
    var changelog: seq<ChangelogEntry>

    constructor(version: string, changelog: seq<ChangelogEntry>)
      ensures this.version == version && this.changelog == changelog
    {
      this.version := version;
      this.changelog := changelog;
    }

    /**
     * `upgradeVersion`: the new version replaces the old one and a new
     * changelog entry, dated `isoDate`, goes first. When the current
     * version cannot be read the script exits and nothing changes.
     */
    method Upgrade(changeDescription: string, today: Day, isoDate: string) returns (r: Result<string>)
      modifies this
      ensures r == GenerateNewVersion(old(version), today)
      ensures r.Ok? ==> (version == r.value &&
        changelog == [ChangelogEntry(r.value, isoDate, changeDescription)] + old(changelog))
      ensures r.Err? ==> version == old(version) && changelog == old(changelog)
    {
      r := GenerateNewVersion(version, today);
      if r.Err? {
        return;
      }
      var newVersion := r.value;
      version := newVersion;
      changelog := [ChangelogEntry(newVersion, isoDate, changeDescription)] + changelog;
    }

    /** The script's entry: an upgrade needs a change description. */
    method RunUpgrade(argument: string, today: Day, isoDate: string) returns (r: Result<string>)
      modifies this
      ensures argument == [] ==> r.Err? && version == old(version) && changelog == old(changelog)
      ensures argument != [] ==> r == GenerateNewVersion(old(version), today)
      ensures argument != [] && r.Ok? ==> (version == r.value &&
        changelog == [ChangelogEntry(r.value, isoDate, argument)] + old(changelog))
      ensures argument != [] && r.Err? ==> version == old(version) && changelog == old(changelog)
    {
      if argument == [] {
        return Err("Please provide a change description");
      }
      r := Upgrade(argument, today, isoDate);
    }
  }
}
