/** Archive member names: what is accepted, and that everything accepted stays under the root. */
module MemberName {
  import opened Results
  import opened Bytes

  const MAX_ARCHIVE_MEMBER_NAME: nat := 4096
  const BACKSLASH: Byte := 92
  const COLON: Byte := 58

  predicate Continuation(b: Byte) {
    0x80 <= b < 0xC0
  }

  /** The bytes of the first well-formed UTF-8 sequence, 0 if there is none. */
  function Utf8Width(s: seq<Byte>): nat
    requires s != []
  {
    var a := s[0];
    if a < 0x80 then 1
    else if 0xC2 <= a < 0xE0 then if |s| >= 2 && Continuation(s[1]) then 2 else 0
    else if 0xE0 <= a < 0xF0 then
      if |s| >= 3 && Continuation(s[1]) && Continuation(s[2])
         && (a == 0xE0 ==> s[1] >= 0xA0) && (a == 0xED ==> s[1] < 0xA0) then 3 else 0
    else if 0xF0 <= a < 0xF5 then
      if |s| >= 4 && Continuation(s[1]) && Continuation(s[2]) && Continuation(s[3])
         && (a == 0xF0 ==> s[1] >= 0x90) && (a == 0xF4 ==> s[1] < 0x90) then 4 else 0
    else 0
  }

  predicate IsUtf8(s: seq<Byte>)
    decreases |s|
  {
    s == [] || (var w := Utf8Width(s); 0 < w <= |s| && IsUtf8(s[w..]))
  }

  /** The components between slashes; never empty as a list. */
  function Split(s: seq<Byte>): (parts: seq<seq<Byte>>)
    ensures |parts| > 0
  {
    if s == [] then [[]]
    else
      var rest := Split(s[1..]);
      if s[0] == SLASH then [[]] + rest else [[s[0]] + rest[0]] + rest[1..]
  }

  function Join(parts: seq<seq<Byte>>): seq<Byte>
    requires |parts| > 0
  {
    if |parts| == 1 then parts[0] else parts[0] + [SLASH] + Join(parts[1..])
  }

  lemma {:induction false} JoinSplit(s: seq<Byte>)
    ensures Join(Split(s)) == s
  {
    if s != [] {
      var rest := Split(s[1..]);
      JoinSplit(s[1..]);
      if s[0] == SLASH {
        assert ([[]] + rest)[1..] == rest;
      } else {
        var parts := [[s[0]] + rest[0]] + rest[1..];
        assert parts[1..] == rest[1..];
        assert Join(parts) == [s[0]] + Join(rest);
      }
    }
  }

  predicate PlainComponent(c: seq<Byte>) {
    c != [] && c != [DOT] && c != [DOT, DOT] && COLON !in c
  }

  predicate EndsWithSlash(raw: seq<Byte>) {
    raw != [] && raw[|raw| - 1] == SLASH
  }

  function WithoutTrailingSlash(raw: seq<Byte>): seq<Byte> {
    if EndsWithSlash(raw) then raw[..|raw| - 1] else raw
  }

  /** Validation of a raw member name against the canonical archive root. */
  function ValidateMemberName(raw: seq<Byte>, root: seq<Byte>): Option<seq<Byte>> {
    if raw == [] || |raw| > MAX_ARCHIVE_MEMBER_NAME || 0 in raw || BACKSLASH in raw || !IsUtf8(raw) then None
    else if raw[0] == SLASH then None
    else
      var name := WithoutTrailingSlash(raw);
      var parts := Split(name);
      if name == [] || !(forall c <- parts :: PlainComponent(c)) || parts[0] != root then None
      else Some(name)
  }

  /** The root itself, or the root followed by plain components. */
  ghost predicate UnderRoot(name: seq<Byte>, root: seq<Byte>) {
    exists parts: seq<seq<Byte>> :: name == Join([root] + parts) && forall c <- parts :: PlainComponent(c)
  }

  /** An accepted name never leaves the archive root: no absolute path, no `.` or `..`, no drive. */
  lemma AcceptedUnderRoot(raw: seq<Byte>, root: seq<Byte>)
    ensures ValidateMemberName(raw, root).Some? ==> UnderRoot(ValidateMemberName(raw, root).value, root)
  {
    if ValidateMemberName(raw, root).Some? {
      var name := WithoutTrailingSlash(raw);
      var parts := Split(name);
      JoinSplit(name);
      assert parts == [root] + parts[1..];
    }
  }
}
