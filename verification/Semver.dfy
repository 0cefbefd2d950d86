/** Semantic versions and their canonical text: what is printed is exactly what is parsed. */
module Semver {
  import opened Results
  import opened Bytes

  const DASH: Byte := 45
  const TWO_TO_THE_64: nat := 0x1_0000_0000_0000_0000

  datatype Version = Version(major: nat, minor: nat, patch: nat, pre: seq<Byte>, build: seq<Byte>)

  predicate IsIdentifierByte(b: Byte) {
    IsDigit(b) || 65 <= b <= 90 || 97 <= b <= 122 || b == DASH
  }

  /** A dot-separated part; in pre-releases a number has no leading zero. */
  predicate IsIdentifier(s: seq<Byte>, strict: bool) {
    && s != [] && (forall b <- s :: IsIdentifierByte(b))
    && (strict && AllDigits(s) && |s| > 1 ==> s[0] != ZERO)
  }

  predicate AreIdentifiers(s: seq<Byte>, strict: bool)
    decreases |s|
  {
    var dot := IndexOf(s, DOT);
    if dot.None? then IsIdentifier(s, strict)
    else IsIdentifier(s[..dot.value], strict) && AreIdentifiers(s[dot.value + 1..], strict)
  }

  predicate Valid(v: Version) {
    && v.major < TWO_TO_THE_64 && v.minor < TWO_TO_THE_64 && v.patch < TWO_TO_THE_64
    && (v.pre == [] || AreIdentifiers(v.pre, true))
    && (v.build == [] || AreIdentifiers(v.build, false))
  }

  function Core(v: Version): seq<Byte> {
    Decimal(v.major) + [DOT] + (Decimal(v.minor) + [DOT] + Decimal(v.patch))
  }

  function Main(v: Version): seq<Byte> {
    if v.pre == [] then Core(v) else Core(v) + [DASH] + v.pre
  }

  function Print(v: Version): seq<Byte> {
    if v.build == [] then Main(v) else Main(v) + [PLUS] + v.build
  }

  /** A number without leading zeros that fits 64 bits. */
  function ParseNumber(s: seq<Byte>): Option<nat> {
    if s == [] || !AllDigits(s) || (|s| > 1 && s[0] == ZERO) || DigitsValue(s) >= TWO_TO_THE_64 then None
    else Some(DigitsValue(s))
  }

  /** The text before the first `b` and what follows it. */
  function Cut(s: seq<Byte>, b: Byte): (seq<Byte>, Option<seq<Byte>>) {
    var at := IndexOf(s, b);
    if at.None? then (s, None) else (s[..at.value], Some(s[at.value + 1..]))
  }

  function ParseCore(s: seq<Byte>): Option<(nat, nat, nat)> {
    var (first, rest) := Cut(s, DOT);
    if rest.None? then None
    else
      var (second, last) := Cut(rest.value, DOT);
      if last.None? then None
      else
        var major, minor, patch := ParseNumber(first), ParseNumber(second), ParseNumber(last.value);
        if major.None? || minor.None? || patch.None? then None else Some((major.value, minor.value, patch.value))
  }

  function Parse(s: seq<Byte>): Option<Version> {
    var (main, build) := Cut(s, PLUS);
    var (core, pre) := Cut(main, DASH);
    var numbers := ParseCore(core);
    if numbers.None? then None
    else if pre.Some? && !AreIdentifiers(pre.value, true) then None
    else if build.Some? && !AreIdentifiers(build.value, false) then None
    else
      Some(Version(numbers.value.0, numbers.value.1, numbers.value.2,
                   if pre.Some? then pre.value else [], if build.Some? then build.value else []))
  }

  /** The source's parser: parse, print again and compare. */
  function ParseCanonical(s: seq<Byte>): Option<Version> {
    var v := Parse(s);
    if v.Some? && Print(v.value) == s then v else None
  }

  // ---- Printing then parsing ----

  lemma CutPrefix(a: seq<Byte>, b: Byte, rest: seq<Byte>)
    requires b !in a
    ensures Cut(a + [b] + rest, b) == (a, Some(rest))
  {
    var s := a + [b] + rest;
    IndexOfPrefix(a, b, rest);
    assert s[..|a|] == a && s[|a| + 1..] == rest;
  }

  lemma CutNone(s: seq<Byte>, b: Byte)
    requires b !in s
    ensures Cut(s, b) == (s, None)
  {
    IndexOfFirst(s, b);
  }

  lemma CutJoins(s: seq<Byte>, b: Byte)
    ensures var (first, rest) := Cut(s, b);
            b !in first && s == if rest.None? then first else first + [b] + rest.value
  {
    IndexOfFirst(s, b);
  }

  lemma {:induction false} NoLeadingZero(n: nat)
    ensures |Decimal(n)| > 1 ==> Decimal(n)[0] != ZERO
    ensures n > 0 ==> Decimal(n)[0] != ZERO
  {
    if n >= 10 {
      NoLeadingZero(n / 10);
      assert Decimal(n)[0] == Decimal(n / 10)[0];
    }
  }

  lemma NumberPrints(n: nat)
    requires n < TWO_TO_THE_64
    ensures ParseNumber(Decimal(n)) == Some(n)
    ensures DOT !in Decimal(n) && DASH !in Decimal(n) && PLUS !in Decimal(n)
  {
    DecimalValue(n);
    NoLeadingZero(n);
    DigitsOnly(Decimal(n), DOT);
    DigitsOnly(Decimal(n), DASH);
    DigitsOnly(Decimal(n), PLUS);
  }

  /** Digits without a leading zero are the decimal of their value. */
  lemma {:induction false} DecimalOfDigits(s: seq<Byte>)
    requires s != [] && AllDigits(s) && (|s| > 1 ==> s[0] != ZERO)
    ensures Decimal(DigitsValue(s)) == s
    ensures s[0] != ZERO ==> DigitsValue(s) > 0
    decreases |s|
  {
    var front, last := s[..|s| - 1], s[|s| - 1];
    assert s == front + [last];
    if front == [] {
      assert DigitsValue(front) == 0;
    } else {
      assert front[0] == s[0];
      DecimalOfDigits(front);
      var n := DigitsValue(front);
      assert (10 * n + (last - 48)) / 10 == n && (10 * n + (last - 48)) % 10 == last - 48;
    }
  }

  lemma {:induction false} IdentifierBytes(s: seq<Byte>, strict: bool)
    requires AreIdentifiers(s, strict)
    ensures s != [] && forall b <- s :: IsIdentifierByte(b) || b == DOT
    decreases |s|
  {
    var dot := IndexOf(s, DOT);
    if dot.Some? {
      IndexOfFirst(s, DOT);
      IdentifierBytes(s[dot.value + 1..], strict);
      assert s == s[..dot.value] + [DOT] + s[dot.value + 1..];
    }
  }

  lemma CoreParses(v: Version)
    requires Valid(v)
    ensures ParseCore(Core(v)) == Some((v.major, v.minor, v.patch))
    ensures DASH !in Core(v) && PLUS !in Core(v)
  {
    NumberPrints(v.major);
    NumberPrints(v.minor);
    NumberPrints(v.patch);
    var rest := Decimal(v.minor) + [DOT] + Decimal(v.patch);
    CutPrefix(Decimal(v.major), DOT, rest);
    CutPrefix(Decimal(v.minor), DOT, Decimal(v.patch));
  }

  lemma NotInJoin(b: Byte, first: seq<Byte>, sep: Byte, rest: seq<Byte>)
    requires b !in first && b != sep && b !in rest
    ensures b !in first + [sep] + rest
  {
  }

  lemma MainParts(v: Version)
    requires Valid(v)
    ensures Cut(Main(v), DASH) == (Core(v), if v.pre == [] then None else Some(v.pre))
    ensures PLUS !in Main(v)
  {
    CoreParses(v);
    if v.pre == [] {
      CutNone(Core(v), DASH);
    } else {
      IdentifierBytes(v.pre, true);
      assert PLUS !in v.pre;
      CutPrefix(Core(v), DASH, v.pre);
      NotInJoin(PLUS, Core(v), DASH, v.pre);
    }
  }

  lemma PrintParses(v: Version)
    requires Valid(v)
    ensures Parse(Print(v)) == Some(v)
  {
    MainParts(v);
    CoreParses(v);
    if v.build == [] {
      CutNone(Main(v), PLUS);
    } else {
      IdentifierBytes(v.build, false);
      CutPrefix(Main(v), PLUS, v.build);
    }
  }

  lemma CoreFrom(s: seq<Byte>)
    requires ParseCore(s).Some?
    ensures var (a, b, c) := ParseCore(s).value;
            && a < TWO_TO_THE_64 && b < TWO_TO_THE_64 && c < TWO_TO_THE_64
            && s == Decimal(a) + [DOT] + (Decimal(b) + [DOT] + Decimal(c))
  {
    CutJoins(s, DOT);
    var (first, rest) := Cut(s, DOT);
    CutJoins(rest.value, DOT);
    var (second, last) := Cut(rest.value, DOT);
    DecimalOfDigits(first);
    DecimalOfDigits(second);
    DecimalOfDigits(last.value);
  }

  lemma ParsePrints(s: seq<Byte>)
    requires Parse(s).Some?
    ensures Valid(Parse(s).value) && Print(Parse(s).value) == s
  {
    var v := Parse(s).value;
    CutJoins(s, PLUS);
    var (main, build) := Cut(s, PLUS);
    CutJoins(main, DASH);
    var (core, pre) := Cut(main, DASH);
    CoreFrom(core);
    if pre.Some? {
      IdentifierBytes(pre.value, true);
    }
    if build.Some? {
      IdentifierBytes(build.value, false);
    }
    assert Main(v) == main;
  }

  /** Text parses as canonical exactly when it is some valid version's print, and then as that version. */
  lemma CanonicalExactly(s: seq<Byte>, v: Version)
    ensures ParseCanonical(s) == Some(v) <==> Valid(v) && s == Print(v)
  {
    if Valid(v) && s == Print(v) {
      PrintParses(v);
    } else if Parse(s).Some? {
      ParsePrints(s);
    }
  }

  /** Printed versions are plain words: no separator, space or control byte, and a digit first. */
  lemma PrintIsPlain(v: Version)
    requires Valid(v)
    ensures Print(v) != [] && IsDigit(Print(v)[0])
    ensures forall b <- Print(v) :: IsIdentifierByte(b) || b == DOT || b == PLUS
  {
    DecimalBytes(v.major);
    DecimalBytes(v.minor);
    DecimalBytes(v.patch);
    DecimalValue(v.major);
    if v.pre != [] {
      IdentifierBytes(v.pre, true);
    }
    if v.build != [] {
      IdentifierBytes(v.build, false);
    }
    assert forall b <- Core(v) :: IsDigit(b) || b == DOT;
    assert Print(v)[0] == Decimal(v.major)[0];
  }

  lemma {:induction false} DecimalBytes(n: nat)
    ensures forall b <- Decimal(n) :: IsDigit(b)
  {
    if n >= 10 {
      DecimalBytes(n / 10);
    }
  }
}
