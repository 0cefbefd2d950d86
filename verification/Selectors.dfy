/**
 The two selectors, a symbolic link on Unix and the `active` file on Windows, with their writers and
 readers, and the paths they are made of.
 */
module Selectors {
  import opened Results
  import opened Bytes
  import opened MemberName
  import opened Semver
  import opened Names

  type Name = seq<Byte>

  /** An absolute path below its root, without `.`, `..` or empty parts. */
  type Path = seq<Name>

  datatype Component = Current | Parent | Normal(name: Name)

  function Versions(): Name {
    Ascii("versions")
  }

  function PayloadFile(root: Path, v: Version, payload: Name): Path {
    root + [Versions(), Print(v), payload]
  }

  predicate PlainName(n: Name) {
    n != [] && SLASH !in n && n != [46] && n != [46, 46]
  }

  // ---- Lexical normalisation ----

  /** Parent drops the last part, and does nothing at the root. */
  function Pushed(stack: Path, c: Component): Path {
    match c
    case Current => stack
    case Parent => if stack == [] then [] else stack[..|stack| - 1]
    case Normal(name) => stack + [name]
  }

  function Normalized(components: seq<Component>): Path {
    if components == [] then [] else Pushed(Normalized(components[..|components| - 1]), components[|components| - 1])
  }

  method LexicalNormalize(components: seq<Component>) returns (normalized: Path)
    ensures normalized == Normalized(components)
  {
    normalized := [];
    for i := 0 to |components|
      invariant normalized == Normalized(components[..i])
    {
      assert components[..i + 1][..i] == components[..i];
      match components[i] {
        case Current =>
        case Parent =>
          if normalized != [] {
            normalized := normalized[..|normalized| - 1];
          }
        case Normal(name) =>
          normalized := normalized + [name];
      }
    }
    assert components[..|components|] == components;
  }

  function Normals(path: Path): seq<Component> {
    seq(|path|, i requires 0 <= i < |path| => Normal(path[i]))
  }

  /** A normalised path stays as it is. */
  lemma {:induction false} NormalizedIsFixed(path: Path)
    ensures Normalized(Normals(path)) == path
  {
    if path != [] {
      var front := path[..|path| - 1];
      assert Normals(path)[..|path| - 1] == Normals(front);
      NormalizedIsFixed(front);
      assert path == front + [path[|path| - 1]];
    }
  }

  /** Normalising may be done piecewise, so `.` can be dropped and `name/..` cancelled anywhere. */
  lemma {:induction false} NormalizedInPieces(a: seq<Component>, b: seq<Component>)
    ensures Normalized(a + b) == Normalized(Normals(Normalized(a)) + b)
    decreases |b|
  {
    if b == [] {
      NormalizedIsFixed(Normalized(a));
      assert a + b == a && Normals(Normalized(a)) + b == Normals(Normalized(a));
    } else {
      var front, last := b[..|b| - 1], b[|b| - 1];
      NormalizedInPieces(a, front);
      assert (a + b)[..|a + b| - 1] == a + front && (a + b)[|a + b| - 1] == last;
      var c := Normals(Normalized(a));
      assert (c + b)[..|c + b| - 1] == c + front && (c + b)[|c + b| - 1] == last;
    }
  }

  lemma NameThenParentCancels(a: seq<Component>, n: Name, b: seq<Component>)
    ensures Normalized(a + [Normal(n), Parent] + b) == Normalized(a + b) == Normalized(a + [Current] + b)
  {
    var up := a + [Normal(n), Parent];
    assert up[..|up| - 1] == a + [Normal(n)];
    assert (a + [Normal(n)])[..|a|] == a;
    assert (a + [Current])[..|a|] == a;
    NormalizedInPieces(up, b);
    NormalizedInPieces(a + [Current], b);
    NormalizedInPieces(a, b);
  }

  // ---- Paths as text ----

  function Render(path: Path): seq<Byte> {
    if path == [] then [] else [SLASH] + path[0] + Render(path[1..])
  }

  /** The parts of a path's text; empty parts and `.` do not count. */
  function Named(parts: seq<Name>): seq<Component> {
    if parts == [] then []
    else if parts[0] == [] || parts[0] == [46] then Named(parts[1..])
    else [if parts[0] == [46, 46] then Parent else Normal(parts[0])] + Named(parts[1..])
  }

  function Components(text: seq<Byte>): seq<Component> {
    Named(Split(text))
  }

  lemma {:induction false} SplitAtSlash(n: Name, rest: seq<Byte>)
    requires SLASH !in n && (rest == [] || rest[0] == SLASH)
    ensures Split(rest)[0] == [] && Split(n + rest) == [n] + Split(rest)[1..]
    decreases |n|
  {
    if n == [] {
      assert n + rest == rest;
    } else {
      assert (n + rest)[1..] == n[1..] + rest;
      SplitAtSlash(n[1..], rest);
      assert n == [n[0]] + n[1..];
    }
  }

  predicate AllPlain(path: Path) {
    forall n <- path :: PlainName(n)
  }

  lemma {:induction false} RenderReads(path: Path)
    requires AllPlain(path)
    ensures Components(Render(path)) == Normals(path)
  {
    if path == [] {
      assert Split([]) == [[]];
    } else {
      PlainParts(path);
      RenderParts(path);
      RenderReads(path[1..]);
      RenderedName(path[0], path[1..]);
    }
  }

  lemma PlainParts(path: Path)
    requires AllPlain(path) && path != []
    ensures PlainName(path[0]) && AllPlain(path[1..])
  {
    assert path[0] in path;
  }

  lemma RenderParts(path: Path)
    requires path != []
    ensures Render(path) == [SLASH] + (path[0] + Render(path[1..]))
    ensures Normals(path) == [Normal(path[0])] + Normals(path[1..])
  {
  }

  /** A slash and a plain name add one component in front. */
  lemma RenderedName(name: Name, path: Path)
    requires PlainName(name)
    ensures Components([SLASH] + (name + Render(path))) == [Normal(name)] + Components(Render(path))
  {
    var rest := Render(path);
    SplitAtSlash(name, rest);
    var parts := Split(rest)[1..];
    assert Split([SLASH] + (name + rest)) == [[]] + ([name] + parts);
    NamedSkipsEmpty([name] + parts);
    assert ([name] + parts)[1..] == parts;
    assert Split(rest) == [[]] + parts;
    NamedSkipsEmpty(parts);
  }

  lemma NamedSkipsEmpty(parts: seq<Name>)
    ensures Named([[]] + parts) == Named(parts)
  {
    assert ([[]] + parts)[1..] == parts;
  }

  // ---- The Unix selector ----

  /** What the switch writes into the link. */
  function SymlinkTarget(root: Path, v: Version, payload: Name): seq<Byte> {
    Render(PayloadFile(root, v, payload))
  }

  /** The version a path below `versions` names: exactly a canonical version and the payload. */
  function ParsePointerVersion(root: Path, pointer: seq<Component>, payload: Name): Option<Version> {
    var versions := Normals(root + [Versions()]);
    if !(versions <= pointer) then None
    else
      var relative := pointer[|versions|..];
      if |relative| != 2 || !relative[0].Normal? || relative[1] != Normal(payload) then None
      else ParseCanonical(relative[0].name)
  }

  function ReadSymlink(root: Path, payload: Name, target: seq<Byte>): Option<Version> {
    if target == [] || target[0] != SLASH then None
    else
      var v := ParsePointerVersion(root, Components(target), payload);
      if v.Some? && Components(target) == Normals(PayloadFile(root, v.value, payload)) then v else None
  }

  /** A link reads as a version exactly when it is absolute and its parts are the payload's path. */
  lemma ReadSymlinkExactly(root: Path, payload: Name, target: seq<Byte>, v: Version)
    ensures ReadSymlink(root, payload, target) == Some(v)
       <==> && Valid(v) && target != [] && target[0] == SLASH
            && Components(target) == Normals(PayloadFile(root, v, payload))
  {
    var versions := root + [Versions()];
    var path := PayloadFile(root, v, payload);
    assert Normals(path)[..|versions|] == Normals(versions);
    assert Normals(path)[|versions|..] == [Normal(Print(v)), Normal(payload)];
    CanonicalExactly(Print(v), v);
    if ReadSymlink(root, payload, target).Some? {
      var relative := Components(target)[|versions|..];
      CanonicalExactly(relative[0].name, ReadSymlink(root, payload, target).value);
    }
  }

  /** What the switch writes the reader reads. */
  lemma SymlinkRoundTrip(root: Path, payload: Name, v: Version)
    requires Valid(v) && PlainName(payload) && forall n <- root :: PlainName(n)
    ensures ReadSymlink(root, payload, SymlinkTarget(root, v, payload)) == Some(v)
  {
    var path := PayloadFile(root, v, payload);
    PrintIsPlain(v);
    AsciiIsPlain("versions");
    assert forall n <- path :: PlainName(n);
    RenderReads(path);
    assert Render(path) != [] && Render(path)[0] == SLASH;
    ReadSymlinkExactly(root, payload, Render(path), v);
  }

  // ---- The Windows selector ----

  const MAX_ACTIVE: nat := 128

  function ActiveBytes(v: Version): seq<Byte> {
    Print(v)
  }

  function ReadActive(bytes: seq<Byte>): Option<Version> {
    if |bytes| > MAX_ACTIVE || !IsUtf8(bytes) then None else ParseCanonical(bytes)
  }

  predicate IsWhitespace(b: Byte) {
    b == 32 || 9 <= b <= 13
  }

  /** No white space at either end; white space outside ASCII never parses as a version anyway. */
  predicate Trimmed(s: seq<Byte>) {
    s == [] || (!IsWhitespace(s[0]) && !IsWhitespace(s[|s| - 1]))
  }

  function LowerAscii(s: seq<Byte>): seq<Byte> {
    seq(|s|, i requires 0 <= i < |s| => if 65 <= s[i] <= 90 then s[i] + 32 else s[i])
  }

  function UpperAscii(s: seq<Byte>): seq<Byte> {
    seq(|s|, i requires 0 <= i < |s| => if 97 <= s[i] <= 122 then s[i] - 32 else s[i])
  }

  /** Device names, with the superscript digits in UTF-8. */
  predicate IsDeviceName(stem: seq<Byte>) {
    || stem in {Ascii("CON"), Ascii("PRN"), Ascii("AUX"), Ascii("NUL"), Ascii("CONIN$"), Ascii("CONOUT$")}
    || (|stem| >= 4 && stem[..3] in {Ascii("COM"), Ascii("LPT")}
        && ((|stem| == 4 && 49 <= stem[3] <= 57) || stem[3..] in {[0xC2, 0xB9], [0xC2, 0xB2], [0xC2, 0xB3]}))
  }

  predicate IsSafeBasename(n: Name, windows: bool) {
    && n != [] && n != [46] && n != [46, 46]
    && SLASH !in n && BACKSLASH !in n && 0 !in n && COLON !in n
    && (windows ==>
          && n[|n| - 1] != 32 && n[|n| - 1] != 46
          && (forall b <- n :: b >= 32 && b !in {34, 60, 62, 124, 63, 42})
          && !IsDeviceName(UpperAscii(Cut(n, 46).0)))
  }

  /** The launcher derives the payload from its own place and the selector's content alone. */
  function ResolveLauncherV1Payload(launcher: Path, active: seq<Byte>, payload: Name): Option<Path> {
    if |launcher| < 2 || LowerAscii(launcher[|launcher| - 2]) != Ascii("bin") then None
    else
      var root := launcher[..|launcher| - 2];
      if !IsUtf8(active) || active == [] || |active| > MAX_ACTIVE || !Trimmed(active) then None
      else
        var v := ParseCanonical(active);
        if v.None? || !IsSafeBasename(payload, true) then None else Some(PayloadFile(root, v.value, payload))
  }

  lemma {:induction false} AsciiIsUtf8(s: seq<Byte>)
    requires forall b <- s :: b < 0x80
    ensures IsUtf8(s)
    decreases |s|
  {
    if s != [] {
      assert s[0] in s && s[0] < 0x80;
      assert forall b <- s[1..] :: b in s;
      AsciiIsUtf8(s[1..]);
    }
  }

  lemma PrintIsAscii(v: Version)
    requires Valid(v)
    ensures IsUtf8(Print(v)) && Print(v) != [] && Trimmed(Print(v))
  {
    PrintIsPlain(v);
    var s := Print(v);
    assert s[0] in s && s[|s| - 1] in s;
    forall b | b in s ensures b < 0x80 {
      assert IsIdentifierByte(b) || b == DOT || b == PLUS;
    }
    AsciiIsUtf8(s);
  }

  /** The written selector is read back exactly when the version is at most 128 bytes long: nothing on
      the writing side bounds it. */
  lemma ActiveRoundTripExactly(v: Version)
    requires Valid(v)
    ensures ReadActive(ActiveBytes(v)) == Some(v) <==> |Print(v)| <= MAX_ACTIVE
  {
    PrintIsAscii(v);
    CanonicalExactly(Print(v), v);
  }

  /** A valid version whose selector nobody can read. */
  lemma LongVersionIsUnreadable() returns (v: Version)
    ensures Valid(v) && ReadActive(ActiveBytes(v)) == None
  {
    var pre := seq(128, i => 97);
    v := Version(1, 0, 0, pre, []);
    CutNone(pre, DOT);
    assert !AllDigits(pre);
    assert Main(v) == Core(v) + [DASH] + pre;
  }

  /** Whatever the file holds, launcher and manager take it for the same payload. */
  lemma LauncherAgrees(root: Path, bin: Name, command: Name, bytes: seq<Byte>, payload: Name, v: Version)
    requires LowerAscii(bin) == Ascii("bin") && IsSafeBasename(payload, true)
    ensures ReadActive(bytes) == Some(v)
       <==> Valid(v) && |bytes| <= MAX_ACTIVE && bytes == Print(v)
            && ResolveLauncherV1Payload(root + [bin, command], bytes, payload) == Some(PayloadFile(root, v, payload))
  {
    var launcher := root + [bin, command];
    assert launcher[..|launcher| - 2] == root;
    CanonicalExactly(bytes, v);
    if Valid(v) {
      PrintIsAscii(v);
    }
  }

  /** The launcher starts something only if the manager reads a version, and then that version's payload. */
  lemma LauncherStartsTheActive(launcher: Path, bytes: seq<Byte>, payload: Name)
    requires ResolveLauncherV1Payload(launcher, bytes, payload).Some?
    ensures ReadActive(bytes).Some?
    ensures ResolveLauncherV1Payload(launcher, bytes, payload)
         == Some(PayloadFile(launcher[..|launcher| - 2], ReadActive(bytes).value, payload))
  {
  }

  // ---- The command path ----

  /** Comparison of names as the file system compares them: equal after folding. */
  predicate StartsWith(path: Path, base: Path, fold: Name -> Name) {
    |base| <= |path| && forall i :: 0 <= i < |base| ==> fold(path[i]) == fold(base[i])
  }

  predicate SamePath(a: Path, b: Path, fold: Name -> Name) {
    |a| == |b| && StartsWith(a, b, fold)
  }

  function Reserved(): seq<Name> {
    [Ascii("active"), Ascii(".lock"), Ascii(".staging"), Ascii("versions"), Ascii("install.json"),
        Ascii("pending-activation.json")]
  }

  predicate ValidateCommandPath(root: Path, command: Path, launcher: Option<Name>, fold: Name -> Name) {
    && !SamePath(root, command, fold) && !StartsWith(root, command, fold)
    && (forall i :: 0 <= i < |Reserved()| ==> !StartsWith(command, root + [Reserved()[i]], fold))
    && (launcher.Some? ==>
          && IsSafeBasename(launcher.value, true)
          && command != [] && SamePath(command[..|command| - 1], root + [Ascii("bin")], fold)
          && IsSafeBasename(command[|command| - 1], true))
  }

  /** Some file would lie in both subtrees. */
  ghost predicate Overlap(a: Path, b: Path, fold: Name -> Name) {
    exists p: Path :: StartsWith(p, a, fold) && StartsWith(p, b, fold)
  }

  lemma OverlapMeansPrefix(a: Path, b: Path, fold: Name -> Name)
    ensures Overlap(a, b, fold) <==> StartsWith(a, b, fold) || StartsWith(b, a, fold)
  {
    if p: Path :| StartsWith(p, a, fold) && StartsWith(p, b, fold) {
      if |b| <= |a| {
        forall i | 0 <= i < |b| ensures fold(a[i]) == fold(b[i]) {
          assert fold(p[i]) == fold(a[i]);
        }
      } else {
        forall i | 0 <= i < |a| ensures fold(b[i]) == fold(a[i]) {
          assert fold(p[i]) == fold(b[i]);
        }
      }
    }
    if StartsWith(a, b, fold) {
      assert StartsWith(a, a, fold);
    }
    if StartsWith(b, a, fold) {
      assert StartsWith(b, b, fold);
    }
  }

  /** Without a launcher a command path is accepted exactly when it overlaps no internal path. */
  lemma CommandNeverOverlaps(root: Path, command: Path, fold: Name -> Name)
    ensures ValidateCommandPath(root, command, None, fold)
       <==> forall i :: 0 <= i < |Reserved()| ==> !Overlap(command, root + [Reserved()[i]], fold)
  {
    forall i | 0 <= i < |Reserved()|
      ensures Overlap(command, root + [Reserved()[i]], fold)
         <==> StartsWith(command, root + [Reserved()[i]], fold) || StartsWith(root, command, fold)
    {
      var internal := root + [Reserved()[i]];
      OverlapMeansPrefix(command, internal, fold);
      if StartsWith(internal, command, fold) && !StartsWith(root, command, fold) {
        assert |command| == |internal|;
        assert StartsWith(command, internal, fold);
      }
      if StartsWith(root, command, fold) {
        assert forall k :: 0 <= k < |command| ==> internal[k] == root[k];
      }
    }
    if StartsWith(root, command, fold) {
      assert Overlap(command, root + [Reserved()[0]], fold);
    }
  }

  /** With one it additionally lies directly in `bin`, and still overlaps nothing internal. */
  lemma LauncherCommandPath(root: Path, command: Path, launcher: Name, fold: Name -> Name)
    requires ValidateCommandPath(root, command, Some(launcher), fold)
    ensures SamePath(command[..|command| - 1], root + [Ascii("bin")], fold)
    ensures forall i :: 0 <= i < |Reserved()| ==> !Overlap(command, root + [Reserved()[i]], fold)
  {
    CommandNeverOverlaps(root, command, fold);
  }
}
