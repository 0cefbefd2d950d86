/** Published names: what is derived from version and target, and how it is taken apart again. */
module Names {
  import opened Results
  import opened Bytes
  import opened MemberName
  import opened Semver

  function AsciiByte(c: char): Byte {
    if c < 128 as char then c as int else 0
  }

  function Ascii(s: string): (b: seq<Byte>)
    ensures |b| == |s| && forall i :: 0 <= i < |s| ==> b[i] == AsciiByte(s[i])
  {
    seq(|s|, i requires 0 <= i < |s| => AsciiByte(s[i]))
  }

  datatype Target =
    | X86_64UnknownLinuxGnu
    | Aarch64UnknownLinuxGnu
    | X86_64AppleDarwin
    | Aarch64AppleDarwin
    | X86_64PcWindowsMsvc

  const ALL: seq<Target> :=
    [Aarch64AppleDarwin, Aarch64UnknownLinuxGnu, X86_64AppleDarwin, X86_64PcWindowsMsvc, X86_64UnknownLinuxGnu]

  function Triple(t: Target): seq<Byte> {
    match t
    case X86_64UnknownLinuxGnu => Ascii("x86_64-unknown-linux-gnu")
    case Aarch64UnknownLinuxGnu => Ascii("aarch64-unknown-linux-gnu")
    case X86_64AppleDarwin => Ascii("x86_64-apple-darwin")
    case Aarch64AppleDarwin => Ascii("aarch64-apple-darwin")
    case X86_64PcWindowsMsvc => Ascii("x86_64-pc-windows-msvc")
  }

  predicate IsWindows(t: Target) {
    t.X86_64PcWindowsMsvc?
  }

  function ArchiveSuffix(t: Target): seq<Byte> {
    if IsWindows(t) then Ascii(".zip") else Ascii(".tar.gz")
  }

  /** `{name}-` and `-{triple}` around the version. */
  function Prefix(app: seq<Byte>): seq<Byte> {
    app + [DASH]
  }

  function Suffix(t: Target): seq<Byte> {
    [DASH] + Triple(t)
  }

  function RootName(app: seq<Byte>, v: Version, t: Target): seq<Byte> {
    Prefix(app) + Print(v) + Suffix(t)
  }

  function ArchiveName(app: seq<Byte>, v: Version, t: Target): seq<Byte> {
    RootName(app, v, t) + ArchiveSuffix(t)
  }

  function PayloadName(app: seq<Byte>, windows: bool): seq<Byte> {
    if windows then app + Ascii(".exe") else app
  }

  function PayloadPath(app: seq<Byte>, v: Version, t: Target): seq<Byte> {
    RootName(app, v, t) + [SLASH] + PayloadName(app, IsWindows(t))
  }

  // ---- Taking names apart ----

  predicate EndsWith(s: seq<Byte>, suffix: seq<Byte>) {
    |suffix| <= |s| && s[|s| - |suffix|..] == suffix
  }

  function StripSuffix(s: seq<Byte>, suffix: seq<Byte>): Option<seq<Byte>> {
    if EndsWith(s, suffix) then Some(s[..|s| - |suffix|]) else None
  }

  function StripPrefix(s: seq<Byte>, prefix: seq<Byte>): Option<seq<Byte>> {
    if |prefix| <= |s| && s[..|prefix|] == prefix then Some(s[|prefix|..]) else None
  }

  const ZERO_VERSION := Version(0, 0, 0, [], [])

  function ParseOrZero(text: Option<seq<Byte>>): Version {
    var v := if text.Some? then Parse(text.value) else Some(ZERO_VERSION);
    if v.Some? then v.value else ZERO_VERSION
  }

  /** The text between prefix and suffix of a root name. */
  function VersionText(app: seq<Byte>, root: seq<Byte>, t: Target): Option<seq<Byte>> {
    var rest := StripPrefix(root, Prefix(app));
    if rest.None? then None else StripSuffix(rest.value, Suffix(t))
  }

  function VersionFromArchiveName(app: seq<Byte>, name: seq<Byte>, t: Target): Version {
    var stem := StripSuffix(name, ArchiveSuffix(t));
    ParseOrZero(VersionText(app, if stem.Some? then stem.value else [], t))
  }

  /** The first component of the payload path carries the version. */
  function VersionFromPayloadPath(app: seq<Byte>, path: seq<Byte>, t: Target): Version {
    ParseOrZero(VersionText(app, Split(path)[0], t))
  }

  /** The first target whose archive name, with the version read from this one, is this name. */
  function FirstTarget(app: seq<Byte>, name: seq<Byte>, targets: seq<Target>): Option<Target> {
    if targets == [] then None
    else if name == ArchiveName(app, VersionFromArchiveName(app, name, targets[0]), targets[0]) then Some(targets[0])
    else FirstTarget(app, name, targets[1..])
  }

  function TargetFromAsset(app: seq<Byte>, name: seq<Byte>): Option<Target> {
    FirstTarget(app, name, ALL)
  }

  // ---- They undo each other ----

  lemma StripSuffixOf(s: seq<Byte>, suffix: seq<Byte>)
    ensures StripSuffix(s + suffix, suffix) == Some(s)
  {
    assert (s + suffix)[|s|..] == suffix && (s + suffix)[..|s|] == s;
  }

  lemma StripBoth(prefix: seq<Byte>, middle: seq<Byte>, suffix: seq<Byte>)
    ensures var rest := StripPrefix(prefix + middle + suffix, prefix);
            rest.Some? && StripSuffix(rest.value, suffix) == Some(middle)
  {
    var s := prefix + middle + suffix;
    assert s[..|prefix|] == prefix && s[|prefix|..] == middle + suffix;
    StripSuffixOf(middle, suffix);
  }

  lemma VersionTextOf(app: seq<Byte>, v: Version, t: Target)
    ensures VersionText(app, RootName(app, v, t), t) == Some(Print(v))
  {
    StripBoth(Prefix(app), Print(v), Suffix(t));
  }

  lemma VersionComesBack(app: seq<Byte>, v: Version, t: Target)
    requires Valid(v)
    ensures VersionFromArchiveName(app, ArchiveName(app, v, t), t) == v
  {
    StripSuffixOf(RootName(app, v, t), ArchiveSuffix(t));
    VersionTextOf(app, v, t);
    PrintParses(v);
  }

  /** Where the triples differ. */
  lemma TripleBytes(t: Target)
    ensures t.X86_64UnknownLinuxGnu? ==> |Triple(t)| == 24 && Triple(t)[3] == 95 && Triple(t)[23] == 117
    ensures t.Aarch64UnknownLinuxGnu? ==> |Triple(t)| == 25 && Triple(t)[4] == 104 && Triple(t)[24] == 117
    ensures t.X86_64AppleDarwin? ==> |Triple(t)| == 19 && Triple(t)[3] == 95 && Triple(t)[18] == 110
    ensures t.Aarch64AppleDarwin? ==> |Triple(t)| == 20 && Triple(t)[4] == 104 && Triple(t)[19] == 110
  {
  }

  lemma TailBytes(s: seq<Byte>, triple: seq<Byte>, suffix: seq<Byte>, k: nat)
    requires EndsWith(s, [DASH] + triple + suffix) && k < |triple|
    ensures |s| >= |triple| + |suffix| && s[|s| - |suffix| - |triple| + k] == triple[k]
    ensures suffix != [] ==> s[|s| - 1] == suffix[|suffix| - 1]
  {
    var tail := [DASH] + triple + suffix;
    assert s[|s| - |tail|..][1 + k] == triple[k];
    assert s[|s| - |tail|..][|tail| - 1] == tail[|tail| - 1];
  }

  /** What tells a target by the end of its archive name: the last byte, the last byte of the triple,
      and the byte before the architecture's `64`. */
  lemma NameEnds(s: seq<Byte>, t: Target)
    requires EndsWith(s, Suffix(t) + ArchiveSuffix(t))
    ensures |s| >= 24 && s[|s| - 1] == if IsWindows(t) then 112 else 122
    ensures !IsWindows(t) ==> s[|s| - 8] == if t.X86_64UnknownLinuxGnu? || t.Aarch64UnknownLinuxGnu? then 117 else 110
    ensures t.X86_64UnknownLinuxGnu? ==> |s| >= 28 && s[|s| - 28] == 95
    ensures t.Aarch64UnknownLinuxGnu? ==> |s| >= 28 && s[|s| - 28] == 104
    ensures t.X86_64AppleDarwin? ==> s[|s| - 23] == 95
    ensures t.Aarch64AppleDarwin? ==> s[|s| - 23] == 104
  {
    var triple, suffix := Triple(t), ArchiveSuffix(t);
    TripleBytes(t);
    TailBytes(s, triple, suffix, |triple| - 1);
    match t
    case X86_64UnknownLinuxGnu => TailBytes(s, triple, suffix, 3);
    case Aarch64UnknownLinuxGnu => TailBytes(s, triple, suffix, 4);
    case X86_64AppleDarwin => TailBytes(s, triple, suffix, 3);
    case Aarch64AppleDarwin => TailBytes(s, triple, suffix, 4);
    case X86_64PcWindowsMsvc =>
  }

  lemma EndsWithTail(app: seq<Byte>, v: Version, t: Target)
    ensures EndsWith(ArchiveName(app, v, t), Suffix(t) + ArchiveSuffix(t))
  {
    assert ArchiveName(app, v, t) == (Prefix(app) + Print(v)) + (Suffix(t) + ArchiveSuffix(t));
  }

  lemma SameTarget(app: seq<Byte>, v1: Version, t1: Target, v2: Version, t2: Target)
    requires ArchiveName(app, v1, t1) == ArchiveName(app, v2, t2)
    ensures t1 == t2
  {
    EndsWithTail(app, v1, t1);
    EndsWithTail(app, v2, t2);
    NameEnds(ArchiveName(app, v1, t1), t1);
    NameEnds(ArchiveName(app, v1, t1), t2);
  }

  /** Version and target determine the archive name and are determined by it. */
  lemma ArchiveNameInjective(app: seq<Byte>, v1: Version, t1: Target, v2: Version, t2: Target)
    requires Valid(v1) && Valid(v2)
    ensures ArchiveName(app, v1, t1) == ArchiveName(app, v2, t2) <==> v1 == v2 && t1 == t2
  {
    if ArchiveName(app, v1, t1) == ArchiveName(app, v2, t2) {
      SameTarget(app, v1, t1, v2, t2);
      VersionComesBack(app, v1, t1);
      VersionComesBack(app, v2, t2);
    }
  }

  lemma {:induction false} FirstTargetFinds(app: seq<Byte>, v: Version, t: Target, targets: seq<Target>)
    requires Valid(v) && t in targets
    ensures FirstTarget(app, ArchiveName(app, v, t), targets) == Some(t)
    decreases |targets|
  {
    var name := ArchiveName(app, v, t);
    var first := targets[0];
    if first == t {
      VersionComesBack(app, v, t);
    } else {
      if name == ArchiveName(app, VersionFromArchiveName(app, name, first), first) {
        SameTarget(app, v, t, VersionFromArchiveName(app, name, first), first);
      }
      FirstTargetFinds(app, v, t, targets[1..]);
    }
  }

  lemma {:induction false} FirstTargetNames(app: seq<Byte>, name: seq<Byte>, targets: seq<Target>)
    ensures FirstTarget(app, name, targets).Some?
        ==> var t := FirstTarget(app, name, targets).value;
            name == ArchiveName(app, VersionFromArchiveName(app, name, t), t)
  {
    if targets != [] {
      FirstTargetNames(app, name, targets[1..]);
    }
  }

  lemma ParsedIsValid(text: Option<seq<Byte>>)
    ensures Valid(ParseOrZero(text))
  {
    if text.Some? && Parse(text.value).Some? {
      ParsePrints(text.value);
    }
  }

  /** A name is recognised exactly when it is some version's archive name for the target, and then
      version and target are the ones it was made from. */
  lemma TargetFromAssetExactly(app: seq<Byte>, name: seq<Byte>, t: Target)
    ensures TargetFromAsset(app, name) == Some(t) <==> exists v :: Valid(v) && name == ArchiveName(app, v, t)
    ensures TargetFromAsset(app, name) == Some(t) ==> name == ArchiveName(app, VersionFromArchiveName(app, name, t), t)
  {
    if TargetFromAsset(app, name) == Some(t) {
      FirstTargetNames(app, name, ALL);
      var stem := StripSuffix(name, ArchiveSuffix(t));
      ParsedIsValid(VersionText(app, if stem.Some? then stem.value else [], t));
      assert Valid(VersionFromArchiveName(app, name, t));
    }
    if v :| Valid(v) && name == ArchiveName(app, v, t) {
      assert t in ALL;
      FirstTargetFinds(app, v, t, ALL);
    }
  }

  lemma {:induction false} SplitFirst(a: seq<Byte>, rest: seq<Byte>)
    requires SLASH !in a
    ensures Split(a + [SLASH] + rest)[0] == a
  {
    var s := a + [SLASH] + rest;
    if a != [] {
      assert s[1..] == a[1..] + [SLASH] + rest;
      SplitFirst(a[1..], rest);
      assert a == [a[0]] + a[1..];
    }
  }

  lemma TripleIsPlain(t: Target)
    ensures SLASH !in Triple(t)
  {
    match t
    case X86_64UnknownLinuxGnu => AsciiIsPlain("x86_64-unknown-linux-gnu");
    case Aarch64UnknownLinuxGnu => AsciiIsPlain("aarch64-unknown-linux-gnu");
    case X86_64AppleDarwin => AsciiIsPlain("x86_64-apple-darwin");
    case Aarch64AppleDarwin => AsciiIsPlain("aarch64-apple-darwin");
    case X86_64PcWindowsMsvc => AsciiIsPlain("x86_64-pc-windows-msvc");
  }

  lemma AsciiIsPlain(s: string)
    requires '/' !in s
    ensures SLASH !in Ascii(s)
  {
    forall i | 0 <= i < |s| ensures Ascii(s)[i] != SLASH {
      assert s[i] in s;
    }
  }

  lemma JoinIsPlain(a: seq<Byte>, b: seq<Byte>, c: seq<Byte>)
    requires SLASH !in a && SLASH !in b && SLASH !in c
    ensures SLASH !in a + [DASH] + b + ([DASH] + c)
  {
  }

  lemma RootIsPlain(app: seq<Byte>, v: Version, t: Target)
    requires Valid(v) && SLASH !in app
    ensures SLASH !in RootName(app, v, t)
  {
    PrintIsPlain(v);
    TripleIsPlain(t);
    JoinIsPlain(app, Print(v), Triple(t));
  }

  /** The version is also recovered from the payload's path inside the archive. */
  lemma PayloadPathCarriesVersion(app: seq<Byte>, v: Version, t: Target)
    requires Valid(v) && SLASH !in app
    ensures VersionFromPayloadPath(app, PayloadPath(app, v, t), t) == v
  {
    RootIsPlain(app, v, t);
    SplitFirst(RootName(app, v, t), PayloadName(app, IsWindows(t)));
    VersionTextOf(app, v, t);
    PrintParses(v);
  }
}
