/**
 The 512-byte ustar header block of IEEE Std 1003.1, "ustar Interchange Format": numeric fields in
 octal text, the checksum over the block with its own field read as spaces, and a writer for it.
 */
module TarHeader {
  import opened Results
  import opened Bytes

  type Block = s: seq<Byte> | |s| == 512 witness seq(512, i => 0)

  datatype Kind = LongName | LongLink | LocalPax | GlobalPax | File | Directory | Unsupported

  function KindOf(block: Block): Kind {
    match block[156]
    case 76 => LongName
    case 75 => LongLink
    case 120 => LocalPax
    case 103 => GlobalPax
    case 0 => File
    case 48 => File
    case 53 => Directory
    case _ => Unsupported
  }

  function UpToNul(s: seq<Byte>): seq<Byte> {
    var nul := IndexOf(s, 0);
    if nul.None? then s else s[..nul.value]
  }

  predicate IsSpace(b: Byte) {
    b == 32 || 9 <= b <= 13
  }

  function TrimLeft(s: seq<Byte>): seq<Byte> {
    if s != [] && IsSpace(s[0]) then TrimLeft(s[1..]) else s
  }

  function TrimRight(s: seq<Byte>): seq<Byte> {
    if s != [] && IsSpace(s[|s| - 1]) then TrimRight(s[..|s| - 1]) else s
  }

  predicate AllOctal(s: seq<Byte>) {
    s == [] || (48 <= s[|s| - 1] <= 55 && AllOctal(s[..|s| - 1]))
  }

  function OctalValue(s: seq<Byte>): nat
    requires AllOctal(s)
  {
    if s == [] then 0 else 8 * OctalValue(s[..|s| - 1]) + (s[|s| - 1] - 48)
  }

  /** A numeric field: text up to a NUL, trimmed, in octal. */
  function ParseOctal(field: seq<Byte>): Option<nat> {
    var text := TrimRight(TrimLeft(UpToNul(field)));
    var digits := if text != [] && text[0] == PLUS then text[1..] else text;
    if digits == [] || !AllOctal(digits) then None else Some(OctalValue(digits))
  }

  function Size(block: Block): Option<nat> {
    ParseOctal(block[124..136])
  }

  function Mode(block: Block): nat {
    var mode := ParseOctal(block[100..108]);
    if mode.None? then 0 else mode.value
  }

  /** Whether any execute bit is set: `mode & 0o111 != 0`. */
  predicate Executable(mode: nat) {
    mode % 2 == 1 || mode / 8 % 2 == 1 || mode / 64 % 2 == 1
  }

  const USTAR: seq<Byte> := [117, 115, 116, 97, 114, 0, 48, 48]

  function HeaderPath(block: Block): seq<Byte> {
    var name := UpToNul(block[0..100]);
    if block[257..265] == USTAR && UpToNul(block[345..500]) != []
    then UpToNul(block[345..500]) + [SLASH] + name
    else name
  }

  function Sum(s: seq<Byte>): nat {
    if s == [] then 0 else Sum(s[..|s| - 1]) + s[|s| - 1]
  }

  function Checksum(block: Block): nat {
    Sum(block[..148]) + 8 * 32 + Sum(block[156..])
  }

  predicate ChecksumMatches(block: Block) {
    ParseOctal(block[148..156]) == Some(Checksum(block))
  }

  predicate AllZero(s: seq<Byte>) {
    forall i :: 0 <= i < |s| ==> s[i] == 0
  }

  /** The end marker is never mistaken for a header, nor a header for the end marker. */
  lemma ZeroBlockHasNoChecksum(block: Block)
    requires AllZero(block)
    ensures !ChecksumMatches(block)
  {
    var field := block[148..156];
    assert field[0] == 0;
    assert UpToNul(field) == [];
  }

  lemma {:induction false} SumBound(s: seq<Byte>)
    ensures Sum(s) <= 255 * |s|
  {
    if s != [] {
      SumBound(s[..|s| - 1]);
    }
  }

  /** The checksum of any block fits the six octal digits of its field. */
  lemma ChecksumFitsSixDigits(block: Block)
    ensures Checksum(block) <= 504 * 255 + 8 * 32 < 0x4_0000
  {
    SumBound(block[..148]);
    SumBound(block[156..]);
  }

  // ---- Writing ----

  function Octal(n: nat, width: nat): (s: seq<Byte>)
    ensures |s| == width
  {
    if width == 0 then [] else Octal(n / 8, width - 1) + [48 + n % 8]
  }

  function Pow8(k: nat): nat {
    if k == 0 then 1 else 8 * Pow8(k - 1)
  }

  lemma {:induction false} OctalRoundTrip(n: nat, width: nat)
    requires n < Pow8(width)
    ensures AllOctal(Octal(n, width)) && OctalValue(Octal(n, width)) == n
  {
    if width != 0 {
      OctalRoundTrip(n / 8, width - 1);
      assert Octal(n, width)[..width - 1] == Octal(n / 8, width - 1);
    }
  }

  lemma {:induction false} OctalText(s: seq<Byte>)
    requires AllOctal(s)
    ensures forall b <- s :: 48 <= b <= 55
  {
    if s != [] {
      OctalText(s[..|s| - 1]);
      assert s == s[..|s| - 1] + [s[|s| - 1]];
    }
  }

  lemma {:induction false} UpToNulPrefix(s: seq<Byte>, rest: seq<Byte>)
    requires 0 !in s && (rest == [] || rest[0] == 0)
    ensures UpToNul(s + rest) == s
  {
    if rest == [] {
      assert s + rest == s;
      IndexOfFirst(s, 0);
    } else {
      assert s + rest == s + [0] + rest[1..];
      IndexOfPrefix(s, 0, rest[1..]);
    }
  }

  /** A numeric field written as zero-padded octal and a NUL reads back. */
  lemma OctalField(n: nat, width: nat, rest: seq<Byte>)
    requires 0 < width && n < Pow8(width) && rest != [] && rest[0] == 0
    ensures ParseOctal(Octal(n, width) + rest) == Some(n)
  {
    var digits := Octal(n, width);
    OctalRoundTrip(n, width);
    OctalText(digits);
    assert digits[0] in digits && digits[|digits| - 1] in digits;
    UpToNulPrefix(digits, rest);
  }

  function Zeros(n: nat): seq<Byte> {
    seq(n, i => 0)
  }

  function Padded(s: seq<Byte>, width: nat): seq<Byte>
    requires |s| <= width
  {
    s + Zeros(width - |s|)
  }

  /** The fields a writer chooses; owner, time, link and device fields are written as zeros. */
  datatype Fields = Fields(prefix: seq<Byte>, name: seq<Byte>, mode: nat, size: nat, typeflag: Byte)

  predicate Writable(f: Fields) {
    && |f.name| <= 100 && 0 !in f.name
    && |f.prefix| <= 155 && 0 !in f.prefix
    && f.mode < Pow8(7) && f.size < Pow8(11)
  }

  function Before(f: Fields): (s: seq<Byte>)
    requires Writable(f)
    ensures |s| == 148
  {
    Padded(f.name, 100) + (Octal(f.mode, 7) + [0]) + Zeros(16) + (Octal(f.size, 11) + [0]) + Zeros(12)
  }

  function After(f: Fields): (s: seq<Byte>)
    requires Writable(f)
    ensures |s| == 356
  {
    [f.typeflag] + Zeros(100) + USTAR + Zeros(80) + Padded(f.prefix, 155) + Zeros(12)
  }

  function ChecksumField(sum: nat): (s: seq<Byte>)
    ensures |s| == 8
  {
    Octal(sum, 6) + [0, 32]
  }

  function Write(f: Fields): (block: Block)
    requires Writable(f)
  {
    Before(f) + ChecksumField(Sum(Before(f)) + 8 * 32 + Sum(After(f))) + After(f)
  }

  lemma BlockParts(f: Fields)
    requires Writable(f)
    ensures Write(f)[..148] == Before(f) && Write(f)[156..] == After(f)
    ensures Write(f)[148..156] == ChecksumField(Sum(Before(f)) + 8 * 32 + Sum(After(f)))
  {
  }

  lemma WriteChecksum(f: Fields)
    requires Writable(f)
    ensures ChecksumMatches(Write(f))
  {
    var block := Write(f);
    BlockParts(f);
    ChecksumFitsSixDigits(block);
    assert Pow8(6) == 0x4_0000 by {
      assert Pow8(3) == 512;
      assert Pow8(6) == 8 * (8 * (8 * Pow8(3)));
    }
    OctalField(Checksum(block), 6, [0, 32]);
  }

  lemma WriteNumbers(f: Fields)
    requires Writable(f)
    ensures Size(Write(f)) == Some(f.size) && Mode(Write(f)) == f.mode
  {
    var block := Write(f);
    BlockParts(f);
    assert block[100..108] == Before(f)[100..108] == Octal(f.mode, 7) + [0];
    assert block[124..136] == Before(f)[124..136] == Octal(f.size, 11) + [0];
    OctalField(f.mode, 7, [0]);
    OctalField(f.size, 11, [0]);
  }

  /** The path a ustar reader puts together from the two name fields. */
  function PathOf(f: Fields): seq<Byte> {
    if f.prefix == [] then f.name else f.prefix + [SLASH] + f.name
  }

  lemma AfterParts(f: Fields)
    requires Writable(f)
    ensures After(f)[0] == f.typeflag
    ensures After(f)[101..109] == USTAR
    ensures After(f)[189..344] == Padded(f.prefix, 155)
  {
  }

  lemma NameSlices(f: Fields)
    requires Writable(f)
    ensures var block := Write(f);
            && block[0..100] == Padded(f.name, 100)
            && block[156] == f.typeflag
            && block[257..265] == USTAR
            && block[345..500] == Padded(f.prefix, 155)
  {
    var block := Write(f);
    BlockParts(f);
    AfterParts(f);
    assert block[0..100] == block[..148][0..100] == Before(f)[0..100] == Padded(f.name, 100);
    assert block[156] == block[156..][0];
    assert block[257..265] == block[156..][101..109];
    assert block[345..500] == block[156..][189..344];
  }

  /** The path follows from the name and prefix fields. */
  lemma PathFromFields(block: Block, name: seq<Byte>, prefix: seq<Byte>)
    requires |name| <= 100 && |prefix| <= 155 && 0 !in name && 0 !in prefix
    requires block[0..100] == Padded(name, 100) && block[257..265] == USTAR && block[345..500] == Padded(prefix, 155)
    ensures HeaderPath(block) == if prefix == [] then name else prefix + [SLASH] + name
  {
    UpToNulPrefix(name, Zeros(100 - |name|));
    UpToNulPrefix(prefix, Zeros(155 - |prefix|));
  }

  lemma WriteNames(f: Fields)
    requires Writable(f)
    ensures HeaderPath(Write(f)) == PathOf(f) && Write(f)[156] == f.typeflag
  {
    NameSlices(f);
    PathFromFields(Write(f), f.name, f.prefix);
  }
}
