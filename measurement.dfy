/**
 * P3A measurements as Brave clients send them: the validity check, the
 * attribute orderings that crowd IDs and the Nested STAR simulation are
 * built from, Brave's semantic versions, the per-channel table of the
 * latest version seen, and the CSV rendering.
 */
module Measurement {
  import opened Wrappers
  import opened Text

  // ---------------------------------------------------------------------------
  // Measurements and their validity

  /** One P3A measurement; Go's int fields are kept as unbounded integers. */
  datatype P3AMeasurement = P3AMeasurement(
    yearOfSurvey: int,
    yearOfInstall: int,
    weekOfSurvey: int,
    weekOfInstall: int,
    metricValue: int,
    metricName: string,
    countryCode: string,
    platform: string,
    version: string,
    channel: string,
    refCode: string)

  /** The validity check, one early return after another as in the source. */
  predicate IsValid(m: P3AMeasurement)
  {
    if m.yearOfSurvey < 1970 || m.yearOfInstall < 1970 then false
    else if m.weekOfSurvey < 1 || m.weekOfSurvey > 53 then false
    else if m.weekOfInstall < 1 || m.weekOfInstall > 53 then false
    else if m.metricValue < 0 then false
    else if m.metricName == "" then false
    else if m.platform == "" || m.version == "" then false
    else if m.channel == "" then false
    else true
  }

  /** Validity is exactly the conjunction of the range and presence conditions. */
  lemma ValidityConditions(m: P3AMeasurement)
    ensures IsValid(m) <==>
      && m.yearOfSurvey >= 1970 && m.yearOfInstall >= 1970
      && 1 <= m.weekOfSurvey <= 53 && 1 <= m.weekOfInstall <= 53
      && m.metricValue >= 0
      && m.metricName != "" && m.platform != "" && m.version != "" && m.channel != ""
  {
  }

  /** The country code and the referral code play no part in validity. */
  lemma ValidityIgnoresCountryAndRefCode(m: P3AMeasurement, countryCode: string, refCode: string)
    ensures IsValid(m.(countryCode := countryCode, refCode := refCode)) == IsValid(m)
  {
  }

  /** Clearing the metric name makes any measurement invalid. */
  lemma ClearedMetricNameIsInvalid(m: P3AMeasurement)
    ensures !IsValid(m.(metricName := ""))
  {
  }

  /** The measurement the unit tests are built around. */
  const SampleMeasurement := P3AMeasurement(2022, 2022, 1, 1, 1, "Brave.Rewards.WalletState",
    "CA", "winx64-bc", "1.37.60", "nightly", "none")

  lemma SampleMeasurementIsValid()
    ensures IsValid(SampleMeasurement)
    ensures !IsValid(SampleMeasurement.(metricName := ""))
  {
  }

  // ---------------------------------------------------------------------------
  // Attribute orderings

  /** The attribute sets a crowd ID can be built from (an iota enumeration). */
  const AttrsAll: int := 0
  const AttrsRefactored: int := 1
  const AttrsMinimal: int := 2

  /** Any other attribute-set value makes the orderings stop the program. */
  predicate IsAttrSet(attrSet: int)
  {
    attrSet == AttrsAll || attrSet == AttrsRefactored || attrSet == AttrsMinimal
  }

  function AttributeCount(attrSet: int): nat
    requires IsAttrSet(attrSet)
  {
    if attrSet == AttrsAll then 11 else if attrSet == AttrsMinimal then 7 else 10
  }

  /**
   * The attributes of m, high-entropy ones first.  `recent` is what the
   * latest-version table answered for m's channel and version; only the
   * Minimal and Refactored sets include it.
   */
  function Attributes(m: P3AMeasurement, attrSet: int, recent: bool): (attrs: seq<string>)
    requires IsAttrSet(attrSet)
    ensures |attrs| == AttributeCount(attrSet)
    ensures attrs[0] == m.metricName && attrs[1] == FormatInt(m.metricValue)
  {
    if attrSet == AttrsAll then
      [m.metricName, FormatInt(m.metricValue), FormatInt(m.weekOfInstall), m.countryCode,
       m.platform, FormatInt(m.yearOfInstall), m.version, m.refCode,
       FormatInt(m.weekOfSurvey), m.channel, FormatInt(m.yearOfSurvey)]
    else if attrSet == AttrsMinimal then
      [m.metricName, FormatInt(m.metricValue), FormatInt(m.weekOfInstall), m.countryCode,
       m.platform, m.channel, FormatBool(recent)]
    else
      [m.metricName, FormatInt(m.metricValue), FormatInt(m.weekOfInstall), m.countryCode,
       m.platform, m.channel, FormatInt(m.yearOfInstall), FormatInt(m.weekOfSurvey),
       FormatInt(m.yearOfSurvey), FormatBool(recent)]
  }

  function Reverse<T>(s: seq<T>): (r: seq<T>)
    ensures |r| == |s|
  {
    if |s| == 0 then [] else Reverse(s[1..]) + [s[0]]
  }

  lemma {:induction false} ReverseAt<T>(s: seq<T>, k: int)
    requires 0 <= k < |s|
    ensures Reverse(s)[k] == s[|s| - 1 - k]
    decreases |s|
  {
    if k < |s| - 1 {
      ReverseAt(s[1..], k);
    }
  }

  /** The elements of s from index k on; empty when s is shorter. */
  function Suffix<T>(s: seq<T>, k: nat): seq<T>
  {
    if k < |s| then s[k..] else []
  }

  /**
   * The high-entropy-last ordering made from a high-entropy-first one:
   * metric name and value stay in front, everything after them is reversed.
   */
  function Mirrored(m: P3AMeasurement, orig: seq<string>): seq<string>
  {
    [m.metricName, FormatInt(m.metricValue)] + Reverse(Suffix(orig, 2))
  }

  /** The loop that builds the high-entropy-last ordering. */
  method MirrorAttributes(m: P3AMeasurement, orig: seq<string>) returns (reversed: seq<string>)
    ensures reversed == Mirrored(m, orig)
  {
    reversed := [];
    reversed := reversed + [m.metricName];
    reversed := reversed + [FormatInt(m.metricValue)];
    var i := |orig| - 1;
    while i >= 2
      invariant i < |orig|
      invariant reversed == [m.metricName, FormatInt(m.metricValue)] + Reverse(Suffix(orig, if i + 1 < 2 then 2 else i + 1))
    {
      assert orig[i..][1..] == Suffix(orig, i + 1);
      reversed := reversed + [orig[i]];
      i := i - 1;
    }
  }

  /**
   * Both orderings have the same length and start with metric name and
   * value, and the rest of one is the other read backwards.
   */
  lemma MirroredAttributes(m: P3AMeasurement, attrSet: int, recent: bool)
    requires IsAttrSet(attrSet)
    ensures var hef := Attributes(m, attrSet, recent);
            var hel := Mirrored(m, hef);
            && |hel| == |hef|
            && hel[0] == hef[0] && hel[1] == hef[1]
            && forall i :: 2 <= i < |hef| ==> hel[|hel| + 1 - i] == hef[i]
  {
    var hef := Attributes(m, attrSet, recent);
    var hel := Mirrored(m, hef);
    forall i | 2 <= i < |hef|
      ensures hel[|hel| + 1 - i] == hef[i]
    {
      ReverseAt(hef[2..], |hef| - 1 - i);
    }
  }

  // ---------------------------------------------------------------------------
  // Versions

  /** A Brave Browser version, major.minor.patch. */
  datatype Version = Version(major: int, minor: int, patch: int)

  /** Whether v1 is newer than v2: compare major, then minor, then patch. */
  predicate NewerThan(v1: Version, v2: Version)
  {
    if v1.major > v2.major then true
    else if v1.major < v2.major then false
    else if v1.minor > v2.minor then true
    else if v1.minor < v2.minor then false
    else v1.patch > v2.patch
  }

  predicate IsEqual(v1: Version, v2: Version)
  {
    v1.major == v2.major && v1.minor == v2.minor && v1.patch == v2.patch
  }

  /** NewerThan is a strict order: irreflexive and transitive. */
  lemma NewerThanIsStrictOrder(a: Version, b: Version, c: Version)
    ensures !NewerThan(a, a)
    ensures NewerThan(a, b) && NewerThan(b, c) ==> NewerThan(a, c)
  {
  }

  /** Of "a is newer", "b is newer" and "they are equal", exactly one holds. */
  lemma VersionTrichotomy(a: Version, b: Version)
    ensures IsEqual(a, b) <==> a == b
    ensures NewerThan(a, b) || NewerThan(b, a) || IsEqual(a, b)
    ensures !(NewerThan(a, b) && NewerThan(b, a))
    ensures !(NewerThan(a, b) && IsEqual(a, b))
    ensures !(NewerThan(b, a) && IsEqual(a, b))
  {
  }

  /** Why a version string could not be read: a missing or a non-numeric component. */
  datatype VersionError = MissingComponent(index: nat) | NotAnInteger(component: string)

  /**
   * newVersion: split at '.', and read the first three pieces as integers;
   * pieces after the third are ignored.  A piece Atoi rejects is fatal, and
   * so is indexing past the end of a string with fewer than three pieces.
   */
  function NewVersion(s: string): (r: Result<Version, VersionError>)
    ensures r.Ok? <==>
      var attrs := Split(s, '.');
      && |attrs| >= 3
      && Atoi(attrs[0]).Some? && Atoi(attrs[1]).Some? && Atoi(attrs[2]).Some?
    ensures r.Ok? ==>
      var attrs := Split(s, '.');
      r.value == Version(Atoi(attrs[0]).value, Atoi(attrs[1]).value, Atoi(attrs[2]).value)
  {
    var attrs := Split(s, '.');
    match Atoi(attrs[0])
    case None => Err(NotAnInteger(attrs[0]))
    case Some(major) =>
      if |attrs| < 2 then Err(MissingComponent(1))
      else match Atoi(attrs[1])
      case None => Err(NotAnInteger(attrs[1]))
      case Some(minor) =>
        if |attrs| < 3 then Err(MissingComponent(2))
        else match Atoi(attrs[2])
        case None => Err(NotAnInteger(attrs[2]))
        case Some(patch) => Ok(Version(major, minor, patch))
  }

  predicate InInt64Range(v: Version)
  {
    && MinInt64 <= v.major <= MaxInt64
    && MinInt64 <= v.minor <= MaxInt64
    && MinInt64 <= v.patch <= MaxInt64
  }

  /** The dotted form "major.minor.patch" of a version. */
  function FormatVersion(v: Version): string
  {
    Join([FormatInt(v.major), FormatInt(v.minor), FormatInt(v.patch)], '.')
  }

  /** Reading a printed version gives the version back. */
  lemma NewVersionOfFormatVersion(v: Version)
    requires InInt64Range(v)
    ensures NewVersion(FormatVersion(v)) == Ok(v)
  {
    var parts := [FormatInt(v.major), FormatInt(v.minor), FormatInt(v.patch)];
    SplitJoin(parts, '.');
    AtoiFormatInt(v.major);
    AtoiFormatInt(v.minor);
    AtoiFormatInt(v.patch);
  }

  /** The version strings the unit tests parse. */
  lemma VersionParseExamples()
    ensures NewVersion("0.0.0") == Ok(Version(0, 0, 0))
    ensures NewVersion("0.0.1") == Ok(Version(0, 0, 1))
    ensures NewVersion("1.2.3") == Ok(Version(1, 2, 3))
  {
    assert FormatVersion(Version(0, 0, 0)) == "0.0.0";
    assert FormatVersion(Version(0, 0, 1)) == "0.0.1";
    assert FormatVersion(Version(1, 2, 3)) == "1.2.3";
    NewVersionOfFormatVersion(Version(0, 0, 0));
    NewVersionOfFormatVersion(Version(0, 0, 1));
    NewVersionOfFormatVersion(Version(1, 2, 3));
  }

  /** The comparisons the unit tests make. */
  lemma VersionComparisonExamples()
    ensures NewerThan(Version(0, 0, 1), Version(0, 0, 0))
    ensures NewerThan(Version(1, 2, 3), Version(1, 2, 2))
    ensures NewerThan(Version(1, 0, 0), Version(0, 1, 1))
    ensures !NewerThan(Version(1, 0, 0), Version(1, 0, 0))
    ensures IsEqual(Version(1, 0, 0), Version(1, 0, 0))
    ensures !IsEqual(Version(1, 0, 0), Version(2, 0, 0))
  {
  }

  /** A version string with only two components is rejected. */
  lemma NewVersionTooFewComponents()
    ensures NewVersion("1.2") == Err(MissingComponent(2))
  {
    SplitJoin(["1", "2"], '.');
    assert Join(["1", "2"], '.') == "1.2";
  }

  /** A component that is not a number is reported as such. */
  lemma NewVersionNotANumber()
    ensures NewVersion("1.x.3") == Err(NotAnInteger("x"))
  {
    SplitJoin(["1", "x", "3"], '.');
    assert Join(["1", "x", "3"], '.') == "1.x.3";
  }

  /** The empty string has one empty component, which is not a number. */
  lemma NewVersionEmpty()
    ensures NewVersion("") == Err(NotAnInteger(""))
  {
  }

  // ---------------------------------------------------------------------------
  // The latest version seen per channel

  /** The table starts at 0.0.0 for every known channel, "" included. */
  const InitialLastVersion: map<string, Version> := map[
    "nightly" := Version(0, 0, 0),
    "release" := Version(0, 0, 0),
    "beta" := Version(0, 0, 0),
    "canary" := Version(0, 0, 0),
    "dev" := Version(0, 0, 0),
    "developer" := Version(0, 0, 0),
    "unknown" := Version(0, 0, 0),
    "" := Version(0, 0, 0)]

  /** A value computed against the version table, with the table as it is afterwards. */
  datatype WithTable<T> = WithTable(value: T, table: map<string, Version>)

  function Answer<T>(r: Result<WithTable<T>, VersionError>): Result<T, VersionError>
  {
    match r
    case Ok(w) => Ok(w.value)
    case Err(e) => Err(e)
  }

  /** The table after a computation; a failed one stops the program with the table as it was. */
  function TableAfter<T>(table: map<string, Version>, r: Result<WithTable<T>, VersionError>): map<string, Version>
  {
    if r.Ok? then r.value.table else table
  }

  /** t2 has the channels of t1, and no channel's version went back. */
  predicate NeverOlder(t1: map<string, Version>, t2: map<string, Version>)
  {
    t1.Keys == t2.Keys && forall c :: c in t1 ==> !NewerThan(t1[c], t2[c])
  }

  lemma NeverOlderTransitive(t1: map<string, Version>, t2: map<string, Version>, t3: map<string, Version>)
    requires NeverOlder(t1, t2) && NeverOlder(t2, t3)
    ensures NeverOlder(t1, t3)
  {
  }

  /**
   * isRecentVersion against a given table: whether strVersion is at least
   * the latest version seen on the channel, and the table with the channel
   * moved forward when it is newer.
   */
  function IsRecent(table: map<string, Version>, channel: string, strVersion: string): (r: Result<WithTable<bool>, VersionError>)
    ensures channel !in table || strVersion == "" ==> r == Ok(WithTable(false, table))
    ensures r.Err? <==> channel in table && strVersion != "" && NewVersion(strVersion).Err?
    ensures r.Ok? ==> NeverOlder(table, r.value.table)
    ensures r.Ok? ==> forall c :: c in table && c != channel ==> r.value.table[c] == table[c]
    ensures r.Ok? ==>
      (r.value.value <==>
        channel in table && strVersion != "" && NewVersion(strVersion).Ok? &&
        !NewerThan(table[channel], NewVersion(strVersion).value))
    ensures r.Ok? && channel in table && strVersion != "" ==>
      r.value.table[channel] == (if NewerThan(NewVersion(strVersion).value, table[channel])
                                 then NewVersion(strVersion).value else table[channel])
  {
    if channel !in table then Ok(WithTable(false, table))
    else if strVersion == "" then Ok(WithTable(false, table))
    else
      match NewVersion(strVersion)
      case Err(e) => Err(e)
      case Ok(v) =>
        if NewerThan(v, table[channel]) then Ok(WithTable(true, table[channel := v]))
        else Ok(WithTable(IsEqual(v, table[channel]), table))
  }

  /** A run of isRecentVersion calls, each a (channel, version) pair, with the answers in order. */
  function IsRecentCalls(table: map<string, Version>, calls: seq<(string, string)>): Result<WithTable<seq<bool>>, VersionError>
    decreases |calls|
  {
    if |calls| == 0 then Ok(WithTable([], table))
    else
      match IsRecent(table, calls[0].0, calls[0].1)
      case Err(e) => Err(e)
      case Ok(first) =>
        match IsRecentCalls(first.table, calls[1..])
        case Err(e) => Err(e)
        case Ok(rest) => Ok(WithTable([first.value] + rest.value, rest.table))
  }

  /** However many calls are made, no channel's latest version ever goes back. */
  lemma {:induction false} IsRecentCallsNeverOlder(table: map<string, Version>, calls: seq<(string, string)>)
    requires IsRecentCalls(table, calls).Ok?
    ensures NeverOlder(table, IsRecentCalls(table, calls).value.table)
    ensures |IsRecentCalls(table, calls).value.value| == |calls|
    decreases |calls|
  {
    if |calls| > 0 {
      var first := IsRecent(table, calls[0].0, calls[0].1).value;
      IsRecentCallsNeverOlder(first.table, calls[1..]);
      NeverOlderTransitive(table, first.table, IsRecentCalls(table, calls).value.table);
    }
  }

  /** isRecentVersion on a printed version of a known channel: recent iff not older, and the channel moves forward to it. */
  lemma IsRecentFormatted(table: map<string, Version>, channel: string, v: Version)
    requires channel in table && InInt64Range(v)
    ensures IsRecent(table, channel, FormatVersion(v)) ==
      Ok(WithTable(!NewerThan(table[channel], v), if NewerThan(v, table[channel]) then table[channel := v] else table))
  {
    NewVersionOfFormatVersion(v);
    assert FormatVersion(v) != "" by {
      SplitJoin([FormatInt(v.major), FormatInt(v.minor), FormatInt(v.patch)], '.');
    }
    VersionTrichotomy(v, table[channel]);
  }

  /** A call that moves the channel forward, followed by the rest of a run. */
  lemma IsRecentCallsNewer(table: map<string, Version>, channel: string, v: Version, rest: seq<(string, string)>, answers: seq<bool>, last: map<string, Version>)
    requires channel in table && InInt64Range(v) && NewerThan(v, table[channel])
    requires IsRecentCalls(table[channel := v], rest) == Ok(WithTable(answers, last))
    ensures IsRecentCalls(table, [(channel, FormatVersion(v))] + rest) == Ok(WithTable([true] + answers, last))
  {
    IsRecentFormatted(table, channel, v);
    NewerThanIsStrictOrder(v, table[channel], v);
    assert ([(channel, FormatVersion(v))] + rest)[1..] == rest;
  }

  /** A call that leaves the table as it is, followed by the rest of a run. */
  lemma IsRecentCallsNotNewer(table: map<string, Version>, channel: string, v: Version, rest: seq<(string, string)>, answers: seq<bool>, last: map<string, Version>)
    requires channel in table && InInt64Range(v) && !NewerThan(v, table[channel])
    requires IsRecentCalls(table, rest) == Ok(WithTable(answers, last))
    ensures IsRecentCalls(table, [(channel, FormatVersion(v))] + rest) ==
      Ok(WithTable([!NewerThan(table[channel], v)] + answers, last))
  {
    IsRecentFormatted(table, channel, v);
    assert ([(channel, FormatVersion(v))] + rest)[1..] == rest;
  }

  /** The release versions of the unit test, printed. */
  lemma ReleaseVersionsPrinted()
    ensures FormatVersion(Version(0, 0, 1)) == "0.0.1"
    ensures FormatVersion(Version(0, 0, 2)) == "0.0.2"
    ensures FormatVersion(Version(1, 0, 0)) == "1.0.0"
    ensures FormatVersion(Version(0, 9, 0)) == "0.9.0"
  {
  }

  /** Five answers consed onto an empty run. */
  lemma FiveAnswers(a: bool, b: bool, c: bool, d: bool, e: bool)
    ensures [a] + ([b] + ([c] + ([d] + ([e] + [])))) == [a, b, c, d, e]
  {
  }

  /**
   * A run on one channel through three ever newer versions, an older one
   * and the newest again answers true, true, true, false, true and leaves
   * the channel at the newest.
   */
  lemma IsRecentReleaseRun(t0: map<string, Version>, v1: Version, v2: Version, v3: Version, v4: Version, calls: seq<(string, string)>)
    requires "release" in t0 && NewerThan(v1, t0["release"]) && NewerThan(v2, v1) && NewerThan(v3, v2) && NewerThan(v3, v4)
    requires InInt64Range(v1) && InInt64Range(v2) && InInt64Range(v3) && InInt64Range(v4)
    requires calls == [("release", FormatVersion(v1)), ("release", FormatVersion(v2)),
                       ("release", FormatVersion(v3)), ("release", FormatVersion(v4)),
                       ("release", FormatVersion(v3))]
    ensures IsRecentCalls(t0, calls)
      == Ok(WithTable([true, true, true, false, true], t0["release" := v3]))
  {
    var t1, t2, t3 := t0["release" := v1], t0["release" := v2], t0["release" := v3];
    assert t1["release" := v2] == t2 && t2["release" := v3] == t3;
    var c4: seq<(string, string)> := [];
    var c3 := [("release", FormatVersion(v3))] + c4;
    var c2 := [("release", FormatVersion(v4))] + c3;
    var c1 := [("release", FormatVersion(v3))] + c2;
    var c0 := [("release", FormatVersion(v2))] + c1;
    assert calls == [("release", FormatVersion(v1))] + c0;
    NewerThanIsStrictOrder(v3, v3, v3);
    IsRecentCallsNotNewer(t3, "release", v3, c4, [], t3);
    IsRecentCallsNotNewer(t3, "release", v4, c3, [true] + [], t3);
    IsRecentCallsNewer(t2, "release", v3, c2, [false] + ([true] + []), t3);
    IsRecentCallsNewer(t1, "release", v2, c1, [true] + ([false] + ([true] + [])), t3);
    IsRecentCallsNewer(t0, "release", v1, c0, [true] + ([true] + ([false] + ([true] + []))), t3);
    FiveAnswers(true, true, true, false, true);
  }

  /** The unit test's run on the release channel from the initial table. */
  lemma UnitTestReleaseRun()
    ensures IsRecentCalls(InitialLastVersion, [("release", "0.0.1"), ("release", "0.0.2"), ("release", "1.0.0"), ("release", "0.9.0"), ("release", "1.0.0")])
      == Ok(WithTable([true, true, true, false, true], InitialLastVersion["release" := Version(1, 0, 0)]))
  {
    ReleaseVersionsPrinted();
    IsRecentReleaseRun(InitialLastVersion, Version(0, 0, 1), Version(0, 0, 2), Version(1, 0, 0), Version(0, 9, 0),
      [("release", "0.0.1"), ("release", "0.0.2"), ("release", "1.0.0"), ("release", "0.9.0"), ("release", "1.0.0")]);
  }

  /** The high-entropy-first ordering against a given table; only Minimal and Refactored consult it. */
  function HighEntropyFirst(table: map<string, Version>, m: P3AMeasurement, attrSet: int): (r: Result<WithTable<seq<string>>, VersionError>)
    requires IsAttrSet(attrSet)
    ensures attrSet == AttrsAll ==> r == Ok(WithTable(Attributes(m, attrSet, false), table))
    ensures r.Ok? ==> NeverOlder(table, r.value.table)
    ensures r.Ok? ==> r.value.value == Attributes(m, attrSet, false) || r.value.value == Attributes(m, attrSet, true)
    ensures attrSet != AttrsAll ==> (r.Err? <==> IsRecent(table, m.channel, m.version).Err?)
    ensures attrSet != AttrsAll && r.Ok? ==>
      r.value == WithTable(Attributes(m, attrSet, IsRecent(table, m.channel, m.version).value.value),
                           IsRecent(table, m.channel, m.version).value.table)
  {
    if attrSet == AttrsAll then Ok(WithTable(Attributes(m, attrSet, false), table))
    else
      match IsRecent(table, m.channel, m.version)
      case Err(e) => Err(e)
      case Ok(o) => Ok(WithTable(Attributes(m, attrSet, o.value), o.table))
  }

  /** The high-entropy-last ordering against a given table. */
  function HighEntropyLast(table: map<string, Version>, m: P3AMeasurement, attrSet: int): (r: Result<WithTable<seq<string>>, VersionError>)
    requires IsAttrSet(attrSet)
    ensures r.Err? <==> HighEntropyFirst(table, m, attrSet).Err?
    ensures r.Ok? ==> r.value.value == Mirrored(m, HighEntropyFirst(table, m, attrSet).value.value)
  {
    match HighEntropyFirst(table, m, attrSet)
    case Err(e) => Err(e)
    case Ok(o) => Ok(WithTable(Mirrored(m, o.value), o.table))
  }

  /** The package-level table of the latest version seen on each channel. */
  class LastVersions {
    var table: map<string, Version>

    constructor ()
      ensures table == InitialLastVersion
    {
      table := InitialLastVersion;
    }

    method IsRecentVersion(channel: string, strVersion: string) returns (r: Result<bool, VersionError>)
      modifies this
      ensures r == Answer(IsRecent(old(table), channel, strVersion))
      ensures table == TableAfter(old(table), IsRecent(old(table), channel, strVersion))
    {
      if channel !in table {
        return Ok(false);
      }
      if strVersion == "" {
        return Ok(false);
      }
      var parsed := NewVersion(strVersion);
      if parsed.Err? {
        return Err(parsed.error);
      }
      var version := parsed.value;
      if NewerThan(version, table[channel]) {
        table := table[channel := version];
        return Ok(true);
      }
      return Ok(IsEqual(version, table[channel]));
    }

    method OrderHighEntropyFirst(m: P3AMeasurement, attrSet: int) returns (r: Result<seq<string>, VersionError>)
      requires IsAttrSet(attrSet)
      modifies this
      ensures r == Answer(HighEntropyFirst(old(table), m, attrSet))
      ensures table == TableAfter(old(table), HighEntropyFirst(old(table), m, attrSet))
    {
      if attrSet == AttrsAll {
        return Ok(Attributes(m, attrSet, false));
      }
      var recent := IsRecentVersion(m.channel, m.version);
      if recent.Err? {
        return Err(recent.error);
      }
      return Ok(Attributes(m, attrSet, recent.value));
    }

    method OrderHighEntropyLast(m: P3AMeasurement, attrSet: int) returns (r: Result<seq<string>, VersionError>)
      requires IsAttrSet(attrSet)
      modifies this
      ensures r == Answer(HighEntropyLast(old(table), m, attrSet))
      ensures table == TableAfter(old(table), HighEntropyLast(old(table), m, attrSet))
    {
      var orig := OrderHighEntropyFirst(m, attrSet);
      if orig.Err? {
        return Err(orig.error);
      }
      var reversed := MirrorAttributes(m, orig.value);
      return Ok(reversed);
    }
  }

  // ---------------------------------------------------------------------------
  // CSV

  /** The column names of the header line, in order. */
  const CSVColumns: seq<string> := ["yos", "yoi", "wos", "woi", "metric_value", "metric_name",
    "country_code", "platform", "version", "channel", "refcode"]

  /** The header line: the column names separated by commas. */
  const CSVHeader: string := Join(CSVColumns, ',')

  /** The fields of a CSV record, in header order. */
  function CSVFields(m: P3AMeasurement): seq<string>
  {
    [FormatInt(m.yearOfSurvey), FormatInt(m.yearOfInstall), FormatInt(m.weekOfSurvey),
     FormatInt(m.weekOfInstall), FormatInt(m.metricValue), m.metricName, m.countryCode,
     m.platform, m.version, m.channel, m.refCode]
  }

  function CSV(m: P3AMeasurement): string
  {
    Join(CSVFields(m), ',')
  }

  /** The header names the eleven columns, separated by ten commas. */
  lemma CSVHeaderColumns()
    ensures Split(CSVHeader, ',') == CSVColumns
    ensures Count(CSVHeader, ',') == 10
  {
    var cols := CSVColumns;
    assert forall i :: 0 <= i < |cols| ==> ',' !in cols[i];
    SplitJoin(cols, ',');
    SplitCount(CSVHeader, ',');
  }

  lemma FormatIntHasNoComma(n: int)
    ensures ',' !in FormatInt(n)
  {
    var s := FormatInt(n);
    assert forall i :: 0 <= i < |s| ==> s[i] != ',';
  }

  /**
   * When no text field holds a comma, the record splits back into its
   * fields, one per header column, with as many commas as the header.
   */
  lemma CSVMatchesHeader(m: P3AMeasurement)
    requires ',' !in m.metricName && ',' !in m.countryCode && ',' !in m.platform
    requires ',' !in m.version && ',' !in m.channel && ',' !in m.refCode
    ensures Split(CSV(m), ',') == CSVFields(m)
    ensures |CSVFields(m)| == |CSVColumns|
    ensures Count(CSV(m), ',') == Count(CSVHeader, ',')
  {
    var fields := CSVFields(m);
    FormatIntHasNoComma(m.yearOfSurvey);
    FormatIntHasNoComma(m.yearOfInstall);
    FormatIntHasNoComma(m.weekOfSurvey);
    FormatIntHasNoComma(m.weekOfInstall);
    FormatIntHasNoComma(m.metricValue);
    assert forall i :: 0 <= i < |fields| ==> ',' !in fields[i];
    SplitJoin(fields, ',');
    SplitCount(CSV(m), ',');
    CSVHeaderColumns();
  }
}
