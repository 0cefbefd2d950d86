/** Byte strings, first occurrences and the decimal numbers of PAX records. */
module Bytes {
  import opened Results

  type Byte = b: nat | b < 256

  const SPACE: Byte := 32
  const NEWLINE: Byte := 10
  const EQUALS: Byte := 61
  const SLASH: Byte := 47
  const PLUS: Byte := 43
  const ZERO: Byte := 48
  const DOT: Byte := 46

  /** The position of the first `b`, as a search from the left finds it. */
  function IndexOf(s: seq<Byte>, b: Byte): (r: Option<nat>)
    ensures r.Some? ==> r.value < |s|
  {
    if s == [] then None
    else if s[0] == b then Some(0)
    else
      var rest := IndexOf(s[1..], b);
      if rest.None? then None else Some(rest.value + 1)
  }

  lemma {:induction false} IndexOfFirst(s: seq<Byte>, b: Byte)
    ensures match IndexOf(s, b)
            case Some(k) => k < |s| && s[k] == b && b !in s[..k]
            case None => b !in s
  {
    if s != [] && s[0] != b {
      IndexOfFirst(s[1..], b);
      if IndexOf(s, b).Some? {
        assert s[..IndexOf(s, b).value] == [s[0]] + s[1..][..IndexOf(s, b).value - 1];
      }
    }
  }

  lemma {:induction false} IndexOfPrefix(a: seq<Byte>, b: Byte, rest: seq<Byte>)
    requires b !in a
    ensures IndexOf(a + [b] + rest, b) == Some(|a|)
  {
    var s := a + [b] + rest;
    if a != [] {
      assert s[1..] == a[1..] + [b] + rest;
      IndexOfPrefix(a[1..], b, rest);
    }
  }

  predicate IsDigit(b: Byte) {
    48 <= b <= 57
  }

  predicate AllDigits(s: seq<Byte>) {
    s == [] || (IsDigit(s[|s| - 1]) && AllDigits(s[..|s| - 1]))
  }

  lemma {:induction false} DigitsOnly(s: seq<Byte>, b: Byte)
    requires AllDigits(s) && !IsDigit(b)
    ensures b !in s
  {
    if s != [] {
      DigitsOnly(s[..|s| - 1], b);
      assert s == s[..|s| - 1] + [s[|s| - 1]];
    }
  }

  function Decimal(n: nat): (s: seq<Byte>)
    ensures |s| > 0
  {
    if n < 10 then [48 + n] else Decimal(n / 10) + [48 + n % 10]
  }

  function DigitsValue(s: seq<Byte>): nat
    requires AllDigits(s)
  {
    if s == [] then 0 else 10 * DigitsValue(s[..|s| - 1]) + (s[|s| - 1] - 48)
  }

  /** Decimal numbers as the standard library parses an unsigned 64-bit integer. */
  function ParseDecimal(s: seq<Byte>): Option<nat> {
    var digits := if s != [] && s[0] == PLUS then s[1..] else s;
    if digits == [] || !AllDigits(digits) then None
    else
      var value := DigitsValue(digits);
      if value < 0x1_0000_0000_0000_0000 then Some(value) else None
  }

  lemma {:induction false} DecimalValue(n: nat)
    ensures AllDigits(Decimal(n)) && DigitsValue(Decimal(n)) == n
    ensures IsDigit(Decimal(n)[0])
  {
    var s := Decimal(n);
    if n >= 10 {
      assert s[..|s| - 1] == Decimal(n / 10);
      DecimalValue(n / 10);
    } else {
      assert s[..0] == [];
    }
  }

  /** Printing then parsing a 64-bit number gives it back. */
  lemma DecimalRoundTrip(n: nat)
    ensures ParseDecimal(Decimal(n)) == if n < 0x1_0000_0000_0000_0000 then Some(n) else None
  {
    DecimalValue(n);
  }

  lemma {:induction false} DecimalLength(n: nat)
    ensures |Decimal(n)| <= 1 + n / 10
  {
    if n >= 10 {
      DecimalLength(n / 10);
    }
  }

  /** A part of a part of a sequence, element by element. */
  lemma SliceOfSlice<T>(s: seq<T>, from: nat, to: nat, i: nat, j: nat)
    requires from <= to <= |s| && i <= j <= to - from
    ensures s[from..to][i..j] == s[from + i..from + j]
  {
    forall k | 0 <= k < j - i ensures s[from..to][i..j][k] == s[from + i..from + j][k] {
      assert s[from..to][i + k] == s[from + i + k];
    }
  }

  /** What follows a sequence does not change its parts. */
  lemma SliceOfPrefix<T>(a: seq<T>, b: seq<T>, i: nat, j: nat)
    requires i <= j <= |a|
    ensures (a + b)[i..j] == a[i..j]
  {
    forall k | 0 <= k < j - i ensures (a + b)[i..j][k] == a[i..j][k] {
      assert (a + b)[i + k] == a[i + k];
    }
  }
}
