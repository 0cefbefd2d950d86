/**
 The check that bounds a ZIP archive before the decoder sees it: find the end-of-central-directory
 record from the back and walk the central directory it names (PKWARE APPNOTE.TXT, sections 4.3.12
 and 4.3.16).
 */
module Zip {
  import opened Results
  import opened Bytes
  import opened MemberName

  datatype Rejected = Rejected

  const MAX_ARCHIVE_MEMBERS: nat := 4096
  const MAX_ARCHIVE_METADATA_SIZE: nat := 8 * 1024 * 1024
  const EOCD_SIGNATURE: seq<Byte> := [80, 75, 5, 6]
  const EOCD_SIZE: nat := 22
  const MAX_COMMENT: nat := 0xFFFF
  const CENTRAL_SIGNATURE: seq<Byte> := [80, 75, 1, 2]
  const CENTRAL_HEADER_SIZE: nat := 46

  function Short(s: seq<Byte>, at: nat): nat
    requires at + 2 <= |s|
  {
    var low: nat, high: nat := s[at], s[at + 1];
    low + 256 * high
  }

  function Long(s: seq<Byte>, at: nat): nat
    requires at + 4 <= |s|
  {
    Short(s, at) + 65536 * Short(s, at + 2)
  }

  /** Whether `n` bytes are there. */
  predicate Has(s: seq<Byte>, at: nat, n: nat) {
    at + n <= |s|
  }

  predicate At(s: seq<Byte>, at: nat, part: seq<Byte>) {
    at + |part| <= |s| && s[at..at + |part|] == part
  }

  // ---- The walk over the central directory ----

  /** The sizes of name, extra field and comment of the header at `at`. */
  function Variable(bytes: seq<Byte>, at: nat): nat
    requires Has(bytes, at, CENTRAL_HEADER_SIZE)
  {
    Short(bytes, at + 28) + Short(bytes, at + 30) + Short(bytes, at + 32)
  }

  /** How many headers tile `bytes[cursor..end]`, added to `members`; `None` if they do not. */
  function Central(bytes: seq<Byte>, cursor: nat, end: nat, members: nat, metadata: nat): Result<Option<nat>, Rejected>
    decreases |bytes| - cursor
  {
    if cursor >= end then Ok(if cursor == end then Some(members) else None)
    else if !Has(bytes, cursor, CENTRAL_HEADER_SIZE) || !At(bytes, cursor, CENTRAL_SIGNATURE) then Ok(None)
    else if Short(bytes, cursor + 28) > MAX_ARCHIVE_MEMBER_NAME then Err(Rejected)
    else
      var variable := Variable(bytes, cursor);
      if metadata + variable > MAX_ARCHIVE_METADATA_SIZE then Err(Rejected)
      else if cursor + CENTRAL_HEADER_SIZE + variable > end then Ok(None)
      else if members + 1 > MAX_ARCHIVE_MEMBERS then Ok(Some(members + 1))
      else Central(bytes, cursor + CENTRAL_HEADER_SIZE + variable, end, members + 1, metadata + variable)
  }

  method ZipCentralMemberCount(bytes: seq<Byte>, start: nat, end: nat) returns (r: Result<Option<nat>, Rejected>)
    ensures r == Central(bytes, start, end, 0, 0)
  {
    var cursor: nat, members: nat, metadataSize: nat := start, 0, 0;
    while cursor < end
      invariant members <= MAX_ARCHIVE_MEMBERS
      invariant Central(bytes, start, end, 0, 0) == Central(bytes, cursor, end, members, metadataSize)
      invariant start < end ==> cursor <= end
      decreases end - cursor
    {
      if !Has(bytes, cursor, CENTRAL_HEADER_SIZE) {
        return Ok(None);
      }
      if !At(bytes, cursor, CENTRAL_SIGNATURE) {
        return Ok(None);
      }
      var nameSize := Short(bytes, cursor + 28);
      if nameSize > MAX_ARCHIVE_MEMBER_NAME {
        return Err(Rejected);
      }
      var variable := nameSize + Short(bytes, cursor + 30) + Short(bytes, cursor + 32);
      metadataSize := metadataSize + variable;
      if metadataSize > MAX_ARCHIVE_METADATA_SIZE {
        return Err(Rejected);
      }
      var next := cursor + CENTRAL_HEADER_SIZE + variable;
      if next > end {
        return Ok(None);
      }
      cursor := next;
      members := members + 1;
      if members > MAX_ARCHIVE_MEMBERS {
        return Ok(Some(members));
      }
    }
    r := Ok(if cursor == end then Some(members) else None);
  }

  // ---- The search for the end record ----

  datatype Candidate = Skip | Reject | Accept

  /** What the search makes of the position `offset`. */
  function Judge(bytes: seq<Byte>, offset: nat): Candidate {
    if !At(bytes, offset, EOCD_SIGNATURE) || !Has(bytes, offset, EOCD_SIZE) then Skip
    else if offset + EOCD_SIZE + Short(bytes, offset + 20) != |bytes|
         || Short(bytes, offset + 4) != 0 || Short(bytes, offset + 6) != 0
         || Short(bytes, offset + 8) != Short(bytes, offset + 10)
    then Skip
    else if Short(bytes, offset + 10) == 0xFFFF || Long(bytes, offset + 12)
        == 0xFFFF_FFFF || Long(bytes, offset + 16) == 0xFFFF_FFFF
    then Reject
    else if Long(bytes, offset + 16) + Long(bytes, offset + 12) != offset then Skip
    else
      var members := Central(bytes, Long(bytes, offset + 16), offset, 0, 0);
      if members.Err? then Reject
      else if members.value != Some(Short(bytes, offset + 10)) then Skip
      else if members.value.value > MAX_ARCHIVE_MEMBERS then Reject
      else Accept
  }

  function SearchStart(bytes: seq<Byte>): nat {
    if |bytes| <= EOCD_SIZE + MAX_COMMENT then 0 else |bytes| - (EOCD_SIZE + MAX_COMMENT)
  }

  /** The last position before `bound` that is not skipped decides. */
  function Search(bytes: seq<Byte>, lowest: nat, bound: nat): (accepted: bool)
    decreases bound
  {
    if bound <= lowest then false
    else
      var judged := Judge(bytes, bound - 1);
      if judged.Skip? then Search(bytes, lowest, bound - 1) else judged.Accept?
  }

  function Preflight(bytes: seq<Byte>): bool {
    if |bytes| < 4 then false else Search(bytes, SearchStart(bytes), |bytes| - 3)
  }

  method PreflightZipMemberCount(bytes: seq<Byte>) returns (ok: bool)
    ensures ok == Preflight(bytes)
  {
    var searchStart := SearchStart(bytes);
    if |bytes| < searchStart + 4 {
      return false;
    }
    for bound := |bytes| - 3 downto searchStart
      invariant Preflight(bytes) == Search(bytes, searchStart, bound)
    {
      var offset := bound;
      if !At(bytes, offset, EOCD_SIGNATURE) {
        continue;
      }
      if !Has(bytes, offset, EOCD_SIZE) {
        continue;
      }
      if offset + EOCD_SIZE + Short(bytes, offset + 20) != |bytes|
         || Short(bytes, offset + 4) != 0 || Short(bytes, offset + 6) != 0
         || Short(bytes, offset + 8) != Short(bytes, offset + 10) {
        continue;
      }
      if Short(bytes, offset + 10) == 0xFFFF || Long(bytes, offset + 12) == 0xFFFF_FFFF || Long(bytes, offset + 16)
          == 0xFFFF_FFFF {
        return false;
      }
      var centralStart := Long(bytes, offset + 16);
      var centralEnd := centralStart + Long(bytes, offset + 12);
      if centralEnd != offset {
        continue;
      }
      var actualMembers := ZipCentralMemberCount(bytes, centralStart, centralEnd);
      if actualMembers.Err? {
        return false;
      }
      if actualMembers.value.None? || actualMembers.value.value != Short(bytes, offset + 10) {
        continue;
      }
      return actualMembers.value.value <= MAX_ARCHIVE_MEMBERS;
    }
    ok := false;
  }

  // ---- Directories as the standard writes them ----

  function Le16(n: nat): (s: seq<Byte>)
    requires n < 0x1_0000
    ensures |s| == 2
  {
    [n % 256, n / 256]
  }

  function Le32(n: nat): (s: seq<Byte>)
    requires n < 0x1_0000_0000
    ensures |s| == 4
  {
    Le16(n % 65536) + Le16(n / 65536)
  }

  /** A central header: the fields the check ignores, and the three variable parts. */
  datatype CentralHeader = CentralHeader(fixed: seq<Byte>, rest: seq<Byte>, name: seq<Byte>, extra: seq<Byte>,
      comment: seq<Byte>)

  predicate Writable(h: CentralHeader) {
    |h.fixed| == 24 && |h.rest| == 12 && |h.name| < 0x1_0000 && |h.extra| < 0x1_0000 && |h.comment| < 0x1_0000
  }

  function VariableSize(h: CentralHeader): nat {
    |h.name| + |h.extra| + |h.comment|
  }

  function WriteHeader(h: CentralHeader): (s: seq<Byte>)
    requires Writable(h)
    ensures |s| == CENTRAL_HEADER_SIZE + VariableSize(h)
  {
    CENTRAL_SIGNATURE + h.fixed + (Le16(|h.name|) + Le16(|h.extra|) + Le16(|h.comment|)) + h.rest
    + (h.name + h.extra + h.comment)
  }

  predicate AllWritable(hs: seq<CentralHeader>) {
    forall i :: 0 <= i < |hs| ==> Writable(hs[i])
  }

  function Directory(hs: seq<CentralHeader>): seq<Byte>
    requires AllWritable(hs)
  {
    if hs == [] then [] else WriteHeader(hs[0]) + Directory(hs[1..])
  }

  function EndRecord(members: nat, size: nat, start: nat, comment: nat): (s: seq<Byte>)
    requires members < 0x1_0000 && size < 0x1_0000_0000 && start < 0x1_0000_0000 && comment < 0x1_0000
    ensures |s| == EOCD_SIZE
  {
    EOCD_SIGNATURE + [0, 0, 0, 0] + (Le16(members) + Le16(members)) + (Le32(size) + Le32(start)) + Le16(comment)
  }

  /** Everything before the directory, the directory, its end record and the archive comment. */
  datatype Archive = Archive(prefix: seq<Byte>, headers: seq<CentralHeader>, comment: seq<Byte>)

  predicate Representable(a: Archive) {
    && AllWritable(a.headers)
    && |a.headers| < 0x1_0000 && |a.comment| < 0x1_0000
    && |Directory(a.headers)| < 0x1_0000_0000 && |a.prefix| < 0x1_0000_0000
  }

  function Encode(a: Archive): seq<Byte>
    requires Representable(a)
  {
    a.prefix + Directory(a.headers)
    + EndRecord(|a.headers|, |Directory(a.headers)|, |a.prefix|, |a.comment|) + a.comment
  }

  function MetadataSize(hs: seq<CentralHeader>): nat {
    if hs == [] then 0 else VariableSize(hs[0]) + MetadataSize(hs[1..])
  }

  predicate Bounded(hs: seq<CentralHeader>) {
    && |hs| <= MAX_ARCHIVE_MEMBERS
    && (forall h <- hs :: |h.name| <= MAX_ARCHIVE_MEMBER_NAME)
    && MetadataSize(hs) <= MAX_ARCHIVE_METADATA_SIZE
  }

  /** A field has the value by which ZIP64 archives say to look elsewhere. */
  predicate Zip64Marked(a: Archive)
    requires Representable(a)
  {
    |a.headers| == 0xFFFF || |Directory(a.headers)| == 0xFFFF_FFFF || |a.prefix| == 0xFFFF_FFFF
  }

  // ---- Reading what was written ----

  lemma ShortAt(s: seq<Byte>, at: nat, n: nat)
    requires n < 0x1_0000 && At(s, at, Le16(n))
    ensures Short(s, at) == n
  {
    assert s[at] == s[at..at + 2][0] && s[at + 1] == s[at..at + 2][1];
  }

  lemma LongAt(s: seq<Byte>, at: nat, n: nat)
    requires n < 0x1_0000_0000 && At(s, at, Le32(n))
    ensures Long(s, at) == n
  {
    assert s[at..at + 2] == s[at..at + 4][..2];
    assert s[at + 2..at + 4] == s[at..at + 4][2..];
    ShortAt(s, at, n % 65536);
    ShortAt(s, at + 2, n / 65536);
  }

  lemma MiddlePart(front: seq<Byte>, part: seq<Byte>, back: seq<Byte>)
    ensures (front + part + back)[|front|..|front| + |part|] == part
  {
    var slice := (front + part + back)[|front|..|front| + |part|];
    forall i | 0 <= i < |part| ensures slice[i] == part[i] {
      assert (front + part + back)[|front| + i] == part[i];
    }
  }

  /** A part of a part. */
  lemma AtPart(s: seq<Byte>, at: nat, front: seq<Byte>, part: seq<Byte>, back: seq<Byte>)
    requires At(s, at, front + part + back)
    ensures At(s, at + |front|, part)
  {
    var whole := front + part + back;
    SliceOfSlice(s, at, at + |whole|, |front|, |front| + |part|);
    MiddlePart(front, part, back);
    assert s[at..at + |whole|] == whole;
  }

  lemma TwoParts(s: seq<Byte>, at: nat, first: seq<Byte>, rest: seq<Byte>)
    requires At(s, at, first + rest)
    ensures At(s, at, first) && At(s, at + |first|, rest)
  {
    assert first + rest == [] + first + rest == first + rest + [];
    AtPart(s, at, [], first, rest);
    AtPart(s, at, first, rest, []);
  }

  lemma HeaderAt(s: seq<Byte>, at: nat, h: CentralHeader)
    requires Writable(h) && At(s, at, WriteHeader(h))
    ensures Has(s, at, CENTRAL_HEADER_SIZE) && At(s, at, CENTRAL_SIGNATURE)
    ensures Short(s, at + 28) == |h.name| && Variable(s, at) == VariableSize(h)
  {
    var a, b, c := Le16(|h.name|), Le16(|h.extra|), Le16(|h.comment|);
    var front := CENTRAL_SIGNATURE + h.fixed;
    var back := h.rest + (h.name + h.extra + h.comment);
    var whole := WriteHeader(h);
    assert whole == [] + CENTRAL_SIGNATURE + (h.fixed + (a + b + c) + back);
    AtPart(s, at, [], CENTRAL_SIGNATURE, h.fixed + (a + b + c) + back);
    assert whole == front + a + (b + c + back);
    AtPart(s, at, front, a, b + c + back);
    assert whole == (front + a) + b + (c + back);
    AtPart(s, at, front + a, b, c + back);
    assert whole == (front + a + b) + c + back;
    AtPart(s, at, front + a + b, c, back);
    ShortAt(s, at + 28, |h.name|);
    ShortAt(s, at + 30, |h.extra|);
    ShortAt(s, at + 32, |h.comment|);
  }

  /** The walk over a written directory, without the bytes. */
  function Tally(hs: seq<CentralHeader>, members: nat, metadata: nat): Result<Option<nat>, Rejected> {
    if hs == [] then Ok(Some(members))
    else if |hs[0].name| > MAX_ARCHIVE_MEMBER_NAME || metadata + VariableSize(hs[0]) > MAX_ARCHIVE_METADATA_SIZE
        then Err(Rejected)
    else if members + 1 > MAX_ARCHIVE_MEMBERS then Ok(Some(members + 1))
    else Tally(hs[1..], members + 1, metadata + VariableSize(hs[0]))
  }

  /** The walk finds this header's sizes here. */
  predicate HeaderFields(s: seq<Byte>, cursor: nat, h: CentralHeader) {
    && Has(s, cursor, CENTRAL_HEADER_SIZE) && At(s, cursor, CENTRAL_SIGNATURE)
    && Short(s, cursor + 28) == |h.name| && Variable(s, cursor) == VariableSize(h)
  }

  lemma CentralStep(s: seq<Byte>, cursor: nat, end: nat, h: CentralHeader, members: nat, metadata: nat)
    requires HeaderFields(s, cursor, h) && cursor + CENTRAL_HEADER_SIZE + VariableSize(h) <= end
    ensures Central(s, cursor, end, members, metadata)
         == if |h.name| > MAX_ARCHIVE_MEMBER_NAME || metadata + VariableSize(h) > MAX_ARCHIVE_METADATA_SIZE
             then Err(Rejected)
            else if members + 1 > MAX_ARCHIVE_MEMBERS then Ok(Some(members + 1))
            else Central(s, cursor + CENTRAL_HEADER_SIZE + VariableSize(h), end, members + 1, metadata
                + VariableSize(h))
  {
  }

  lemma FirstHeader(s: seq<Byte>, cursor: nat, hs: seq<CentralHeader>)
    requires hs != [] && AllWritable(hs)
    requires At(s, cursor, Directory(hs))
    ensures HeaderFields(s, cursor, hs[0])
    ensures var size := CENTRAL_HEADER_SIZE + VariableSize(hs[0]);
            At(s, cursor + size, Directory(hs[1..])) && |Directory(hs)| == size + |Directory(hs[1..])|
  {
    TwoParts(s, cursor, WriteHeader(hs[0]), Directory(hs[1..]));
    HeaderAt(s, cursor, hs[0]);
  }

  /** The headers' sizes are found one after the other, up to `end`. */
  predicate Laid(s: seq<Byte>, cursor: nat, end: nat, hs: seq<CentralHeader>)
    decreases |hs|
  {
    if hs == [] then cursor == end
    else
      var next := cursor + CENTRAL_HEADER_SIZE + VariableSize(hs[0]);
      HeaderFields(s, cursor, hs[0]) && next <= end && Laid(s, next, end, hs[1..])
  }

  /** What is left of a written directory after its first header. */
  lemma DirectoryRest(s: seq<Byte>, cursor: nat, end: nat, hs: seq<CentralHeader>)
    requires hs != [] && AllWritable(hs)
    requires At(s, cursor, Directory(hs)) && end == cursor + |Directory(hs)|
    ensures AllWritable(hs[1..]) && HeaderFields(s, cursor, hs[0])
    ensures var next := cursor + CENTRAL_HEADER_SIZE + VariableSize(hs[0]);
            next <= end && At(s, next, Directory(hs[1..])) && end == next + |Directory(hs[1..])|
  {
    FirstHeader(s, cursor, hs);
  }

  lemma {:induction false} DirectoryLaid(s: seq<Byte>, cursor: nat, end: nat, hs: seq<CentralHeader>)
    requires AllWritable(hs)
    requires At(s, cursor, Directory(hs)) && end == cursor + |Directory(hs)|
    ensures Laid(s, cursor, end, hs)
    decreases |hs|
  {
    if hs != [] {
      DirectoryRest(s, cursor, end, hs);
      DirectoryLaid(s, cursor + CENTRAL_HEADER_SIZE + VariableSize(hs[0]), end, hs[1..]);
      LaidStep(s, cursor, end, hs);
    }
  }

  lemma LaidStep(s: seq<Byte>, cursor: nat, end: nat, hs: seq<CentralHeader>)
    requires hs != [] && HeaderFields(s, cursor, hs[0])
    requires var next := cursor + CENTRAL_HEADER_SIZE + VariableSize(hs[0]); next <= end && Laid(s, next, end, hs[1..])
    ensures Laid(s, cursor, end, hs)
  {
  }

  lemma {:induction false} CentralOfLaid(s: seq<Byte>, cursor: nat, end: nat, hs: seq<CentralHeader>, members: nat,
      metadata: nat)
    requires Laid(s, cursor, end, hs)
    ensures Central(s, cursor, end, members, metadata) == Tally(hs, members, metadata)
    decreases |hs|
  {
    if hs != [] {
      CentralStep(s, cursor, end, hs[0], members, metadata);
      var size := CENTRAL_HEADER_SIZE + VariableSize(hs[0]);
      CentralOfLaid(s, cursor + size, end, hs[1..], members + 1, metadata + VariableSize(hs[0]));
    }
  }

  lemma {:induction false} TallyBounds(hs: seq<CentralHeader>, members: nat, metadata: nat)
    requires members <= MAX_ARCHIVE_MEMBERS && metadata <= MAX_ARCHIVE_METADATA_SIZE
    ensures (Tally(hs, members, metadata) == Ok(Some(members + |hs|)) && members + |hs| <= MAX_ARCHIVE_MEMBERS)
       <==> && members + |hs| <= MAX_ARCHIVE_MEMBERS && metadata + MetadataSize(hs) <= MAX_ARCHIVE_METADATA_SIZE
            && (forall h <- hs :: |h.name| <= MAX_ARCHIVE_MEMBER_NAME)
    decreases |hs|
  {
    if hs != [] {
      assert hs == [hs[0]] + hs[1..];
      if |hs[0].name| <= MAX_ARCHIVE_MEMBER_NAME && metadata + VariableSize(hs[0]) <= MAX_ARCHIVE_METADATA_SIZE
         && members + 1 <= MAX_ARCHIVE_MEMBERS
      {
        TallyBounds(hs[1..], members + 1, metadata + VariableSize(hs[0]));
      }
    }
  }

  /** An end record of a single-disk archive with these values is in its place. */
  predicate EndFields(s: seq<Byte>, at: nat, members: nat, size: nat, start: nat, comment: nat) {
    && At(s, at, EOCD_SIGNATURE) && Has(s, at, EOCD_SIZE)
    && Short(s, at + 4) == 0 && Short(s, at + 6) == 0
    && Short(s, at + 8) == members && Short(s, at + 10) == members
    && Long(s, at + 12) == size && Long(s, at + 16) == start && Short(s, at + 20) == comment
    && start + size == at && at + EOCD_SIZE + comment == |s|
  }

  lemma EndRecordAt(s: seq<Byte>, at: nat, members: nat, size: nat, start: nat, comment: nat)
    requires members < 0x1_0000 && size < 0x1_0000_0000 && start < 0x1_0000_0000 && comment < 0x1_0000
    requires At(s, at, EndRecord(members, size, start, comment))
    requires start + size == at && at + EOCD_SIZE + comment == |s|
    ensures EndFields(s, at, members, size, start, comment)
  {
    EndRecordValues(s, at, members, size, start, comment);
  }

  lemma EndRecordValues(s: seq<Byte>, at: nat, members: nat, size: nat, start: nat, comment: nat)
    requires members < 0x1_0000 && size < 0x1_0000_0000 && start < 0x1_0000_0000 && comment < 0x1_0000
    requires At(s, at, EndRecord(members, size, start, comment))
    ensures At(s, at, EOCD_SIGNATURE) && Has(s, at, EOCD_SIZE)
    ensures Short(s, at + 4) == 0 && Short(s, at + 6) == 0
    ensures Short(s, at + 8) == members && Short(s, at + 10) == members
    ensures Long(s, at + 12) == size && Long(s, at + 16) == start && Short(s, at + 20) == comment
  {
    var whole := EndRecord(members, size, start, comment);
    var disks, m, z, st, c := [0, 0, 0, 0], Le16(members), Le32(size), Le32(start), Le16(comment);
    assert whole == [] + EOCD_SIGNATURE + (disks + (m + m) + (z + st) + c);
    AtPart(s, at, [], EOCD_SIGNATURE, disks + (m + m) + (z + st) + c);
    assert whole == EOCD_SIGNATURE + Le16(0) + (Le16(0) + (m + m) + (z + st) + c);
    AtPart(s, at, EOCD_SIGNATURE, Le16(0), Le16(0) + (m + m) + (z + st) + c);
    assert whole == (EOCD_SIGNATURE + Le16(0)) + Le16(0) + ((m + m) + (z + st) + c);
    AtPart(s, at, EOCD_SIGNATURE + Le16(0), Le16(0), (m + m) + (z + st) + c);
    assert whole == (EOCD_SIGNATURE + disks) + m + (m + (z + st) + c);
    AtPart(s, at, EOCD_SIGNATURE + disks, m, m + (z + st) + c);
    assert whole == (EOCD_SIGNATURE + disks + m) + m + ((z + st) + c);
    AtPart(s, at, EOCD_SIGNATURE + disks + m, m, (z + st) + c);
    assert whole == (EOCD_SIGNATURE + disks + m + m) + z + (st + c);
    AtPart(s, at, EOCD_SIGNATURE + disks + m + m, z, st + c);
    assert whole == (EOCD_SIGNATURE + disks + m + m + z) + st + c;
    AtPart(s, at, EOCD_SIGNATURE + disks + m + m + z, st, c);
    assert whole == (EOCD_SIGNATURE + disks + m + m + z + st) + c + [];
    AtPart(s, at, EOCD_SIGNATURE + disks + m + m + z + st, c, []);
    ShortAt(s, at + 4, 0);
    ShortAt(s, at + 6, 0);
    ShortAt(s, at + 8, members);
    ShortAt(s, at + 10, members);
    LongAt(s, at + 12, size);
    LongAt(s, at + 16, start);
    ShortAt(s, at + 20, comment);
  }

  // ---- Exact acceptance ----

  lemma PartsOf(a: Archive)
    requires Representable(a)
    ensures var s := Encode(a);
            var offset := |a.prefix| + |Directory(a.headers)|;
            && |s| == offset + EOCD_SIZE + |a.comment|
            && At(s, |a.prefix|, Directory(a.headers))
            && At(s, offset, EndRecord(|a.headers|, |Directory(a.headers)|, |a.prefix|, |a.comment|))
  {
    var d := Directory(a.headers);
    var e := EndRecord(|a.headers|, |d|, |a.prefix|, |a.comment|);
    assert Encode(a) == a.prefix + d + (e + a.comment);
    assert At(Encode(a), 0, a.prefix + d + (e + a.comment));
    AtPart(Encode(a), 0, a.prefix, d, e + a.comment);
    assert Encode(a) == (a.prefix + d) + e + a.comment;
    AtPart(Encode(a), 0, a.prefix + d, e, a.comment);
  }

  /** An end record in its place is judged by its directory. */
  lemma JudgeEndRecord(s: seq<Byte>, offset: nat, n: nat, size: nat, start: nat, comment: nat)
    requires EndFields(s, offset, n, size, start, comment)
    ensures Judge(s, offset).Accept?
       <==> && n != 0xFFFF && size != 0xFFFF_FFFF && start != 0xFFFF_FFFF
            && Central(s, start, offset, 0, 0) == Ok(Some(n)) && n <= MAX_ARCHIVE_MEMBERS
  {
  }

  /** The walk over a written directory finds all its headers exactly if it meets the bounds. */
  lemma CentralOfDirectory(s: seq<Byte>, start: nat, offset: nat, hs: seq<CentralHeader>)
    requires AllWritable(hs)
    requires At(s, start, Directory(hs)) && offset == start + |Directory(hs)|
    ensures Central(s, start, offset, 0, 0) == Ok(Some(|hs|)) && |hs| <= MAX_ARCHIVE_MEMBERS <==> Bounded(hs)
  {
    DirectoryLaid(s, start, offset, hs);
    CentralOfLaid(s, start, offset, hs, 0, 0);
    TallyBounds(hs, 0, 0);
  }

  lemma JudgeDirectory(s: seq<Byte>, offset: nat, hs: seq<CentralHeader>, start: nat, comment: nat)
    requires AllWritable(hs)
    requires At(s, start, Directory(hs)) && EndFields(s, offset, |hs|, |Directory(hs)|, start, comment)
    ensures Judge(s, offset).Accept?
       <==> Bounded(hs) && |hs| != 0xFFFF && |Directory(hs)| != 0xFFFF_FFFF && start != 0xFFFF_FFFF
  {
    var size := |Directory(hs)|;
    JudgeEndRecord(s, offset, |hs|, size, start, comment);
    CentralOfDirectory(s, start, offset, hs);
  }

  lemma JudgeParts(s: seq<Byte>, a: Archive, offset: nat)
    requires Representable(a) && offset == |a.prefix| + |Directory(a.headers)|
    requires |s| == offset + EOCD_SIZE + |a.comment|
    requires At(s, |a.prefix|, Directory(a.headers))
    requires At(s, offset, EndRecord(|a.headers|, |Directory(a.headers)|, |a.prefix|, |a.comment|))
    ensures Judge(s, offset).Accept? <==> Bounded(a.headers) && !Zip64Marked(a)
  {
    EndRecordAt(s, offset, |a.headers|, |Directory(a.headers)|, |a.prefix|, |a.comment|);
    JudgeDirectory(s, offset, a.headers, |a.prefix|, |a.comment|);
  }

  lemma {:induction false} LastDecides(bytes: seq<Byte>, lowest: nat, bound: nat, offset: nat)
    requires lowest <= offset < bound && !Judge(bytes, offset).Skip?
    requires forall o :: offset < o < bound ==> Judge(bytes, o).Skip?
    ensures Search(bytes, lowest, bound) <==> Judge(bytes, offset).Accept?
    decreases bound
  {
    if bound - 1 != offset {
      LastDecides(bytes, lowest, bound - 1, offset);
    }
  }

  // ---- Soundness ----

  lemma {:induction false} SearchFinds(bytes: seq<Byte>, lowest: nat, bound: nat) returns (offset: nat)
    requires Search(bytes, lowest, bound)
    ensures lowest <= offset < bound && Judge(bytes, offset).Accept?
    decreases bound
  {
    if Judge(bytes, bound - 1).Skip? {
      offset := SearchFinds(bytes, lowest, bound - 1);
    } else {
      offset := bound - 1;
    }
  }

  lemma Le16OfShort(s: seq<Byte>, at: nat)
    requires Has(s, at, 2)
    ensures Short(s, at) < 0x1_0000 && s[at..at + 2] == Le16(Short(s, at))
  {
  }

  lemma HalvesOf(low: nat, high: nat)
    requires low < 65536 && high < 65536
    ensures (low + 65536 * high) % 65536 == low && (low + 65536 * high) / 65536 == high
  {
  }

  lemma Le32OfLong(s: seq<Byte>, at: nat)
    requires Has(s, at, 4)
    ensures Long(s, at) < 0x1_0000_0000 && s[at..at + 4] == Le32(Long(s, at))
  {
    Le16OfShort(s, at);
    Le16OfShort(s, at + 2);
    HalvesOf(Short(s, at), Short(s, at + 2));
    Cut(s, at, at + 2, at + 4);
  }

  function HeaderFrom(s: seq<Byte>, at: nat): CentralHeader
    requires Has(s, at, CENTRAL_HEADER_SIZE) && Has(s, at, CENTRAL_HEADER_SIZE + Variable(s, at))
  {
    var name := at + CENTRAL_HEADER_SIZE;
    var extra := name + Short(s, at + 28);
    var comment := extra + Short(s, at + 30);
    CentralHeader(s[at + 4..at + 28], s[at + 34..at + 46], s[name..extra], s[extra..comment],
        s[comment..comment + Short(s, at + 32)])
  }

  lemma HeaderFromWrites(s: seq<Byte>, at: nat)
    requires Has(s, at, CENTRAL_HEADER_SIZE) && At(s, at, CENTRAL_SIGNATURE)
    requires Has(s, at, CENTRAL_HEADER_SIZE + Variable(s, at))
    ensures var h := HeaderFrom(s, at);
            && Writable(h) && VariableSize(h) == Variable(s, at) && |h.name| == Short(s, at + 28)
            && s[at..at + CENTRAL_HEADER_SIZE + Variable(s, at)] == WriteHeader(h)
  {
    var h := HeaderFrom(s, at);
    var name := at + CENTRAL_HEADER_SIZE;
    var extra := name + |h.name|;
    var comment := extra + |h.extra|;
    var end := comment + |h.comment|;
    SizesFrom(s, at + 28);
    Cut(s, at, at + 4, at + 28);
    Cut(s, at, at + 28, at + 34);
    Cut(s, at, at + 34, name);
    Cut(s, name, extra, comment);
    Cut(s, name, comment, end);
    Cut(s, at, name, end);
  }

  lemma SizesFrom(s: seq<Byte>, at: nat)
    requires Has(s, at, 6)
    ensures Short(s, at) < 0x1_0000 && Short(s, at + 2) < 0x1_0000 && Short(s, at + 4) < 0x1_0000
    ensures s[at..at + 6] == Le16(Short(s, at)) + Le16(Short(s, at + 2)) + Le16(Short(s, at + 4))
  {
    Le16OfShort(s, at);
    Le16OfShort(s, at + 2);
    Le16OfShort(s, at + 4);
    Cut(s, at, at + 2, at + 4);
    Cut(s, at, at + 4, at + 6);
  }

  lemma Cut(s: seq<Byte>, a: nat, b: nat, c: nat)
    requires a <= b <= c <= |s|
    ensures s[a..c] == s[a..b] + s[b..c]
  {
  }

  /** One turn of a walk that ends in an exact tiling. */
  lemma TilingStep(s: seq<Byte>, cursor: nat, end: nat, members: nat, metadata: nat, n: nat)
    requires cursor < end <= |s| && n <= MAX_ARCHIVE_MEMBERS
    requires Central(s, cursor, end, members, metadata) == Ok(Some(n))
    ensures Has(s, cursor, CENTRAL_HEADER_SIZE) && At(s, cursor, CENTRAL_SIGNATURE)
    ensures Short(s, cursor + 28) <= MAX_ARCHIVE_MEMBER_NAME
    ensures metadata + Variable(s, cursor) <= MAX_ARCHIVE_METADATA_SIZE
    ensures var next := cursor + CENTRAL_HEADER_SIZE + Variable(s, cursor);
            next <= end && Central(s, next, end, members + 1, metadata + Variable(s, cursor)) == Ok(Some(n))
  {
  }

  /** An exact tiling is a written directory within the bounds. */
  lemma {:induction false} TilingIsDirectory(s: seq<Byte>, cursor: nat, end: nat, members: nat, metadata: nat, n: nat)
    returns (hs: seq<CentralHeader>)
    requires cursor <= end <= |s| && Central(s, cursor, end, members, metadata) == Ok(Some(n))
    requires n <= MAX_ARCHIVE_MEMBERS && metadata <= MAX_ARCHIVE_METADATA_SIZE
    ensures AllWritable(hs) && forall h <- hs :: |h.name| <= MAX_ARCHIVE_MEMBER_NAME
    ensures s[cursor..end] == Directory(hs) && members + |hs| == n
    ensures metadata + MetadataSize(hs) <= MAX_ARCHIVE_METADATA_SIZE
    decreases |s| - cursor
  {
    if cursor == end {
      return [];
    }
    TilingStep(s, cursor, end, members, metadata, n);
    var next := cursor + CENTRAL_HEADER_SIZE + Variable(s, cursor);
    HeaderFromWrites(s, cursor);
    var h := HeaderFrom(s, cursor);
    var rest := TilingIsDirectory(s, next, end, members + 1, metadata + Variable(s, cursor), n);
    hs := [h] + rest;
    assert hs[1..] == rest;
    Cut(s, cursor, next, end);
  }

  lemma EndRecordFrom(s: seq<Byte>, at: nat)
    requires At(s, at, EOCD_SIGNATURE) && Has(s, at, EOCD_SIZE)
    requires Short(s, at + 4) == 0 && Short(s, at + 6) == 0 && Short(s, at + 8) == Short(s, at + 10)
    ensures Short(s, at + 10) < 0x1_0000 && Short(s, at + 20) < 0x1_0000
    ensures Long(s, at + 12) < 0x1_0000_0000 && Long(s, at + 16) < 0x1_0000_0000
    ensures s[at..at + EOCD_SIZE] == EndRecord(Short(s, at + 10), Long(s, at + 12), Long(s, at + 16), Short(s, at + 20))
  {
    FrontFrom(s, at);
    BackFrom(s, at + 12);
    Cut(s, at, at + 12, at + 20);
    Cut(s, at, at + 20, at + EOCD_SIZE);
  }

  /** Signature, disk numbers and the two counts. */
  lemma FrontFrom(s: seq<Byte>, at: nat)
    requires At(s, at, EOCD_SIGNATURE) && Has(s, at, 12)
    requires Short(s, at + 4) == 0 && Short(s, at + 6) == 0 && Short(s, at + 8) == Short(s, at + 10)
    ensures var n := Short(s, at + 10);
            n < 0x1_0000 && s[at..at + 12] == EOCD_SIGNATURE + [0, 0, 0, 0] + (Le16(n) + Le16(n))
  {
    Le16OfShort(s, at + 4);
    Le16OfShort(s, at + 6);
    Le16OfShort(s, at + 8);
    Le16OfShort(s, at + 10);
    Cut(s, at + 4, at + 6, at + 8);
    Cut(s, at + 8, at + 10, at + 12);
    Cut(s, at, at + 4, at + 8);
    Cut(s, at, at + 8, at + 12);
    assert Le16(0) + Le16(0) == [0, 0, 0, 0];
  }

  /** Size and start of the directory and the length of the comment. */
  lemma BackFrom(s: seq<Byte>, at: nat)
    requires Has(s, at, 10)
    ensures Long(s, at) < 0x1_0000_0000 && Long(s, at + 4) < 0x1_0000_0000 && Short(s, at + 8) < 0x1_0000
    ensures s[at..at + 8] == Le32(Long(s, at)) + Le32(Long(s, at + 4))
    ensures s[at + 8..at + 10] == Le16(Short(s, at + 8))
  {
    Le32OfLong(s, at);
    Le32OfLong(s, at + 4);
    Le16OfShort(s, at + 8);
    Cut(s, at, at + 4, at + 8);
  }

  lemma AcceptedFields(s: seq<Byte>, offset: nat)
    requires Judge(s, offset).Accept?
    ensures Has(s, offset, EOCD_SIZE)
    ensures EndFields(s, offset, Short(s, offset + 10), Long(s, offset + 12), Long(s, offset + 16),
        Short(s, offset + 20))
    ensures Central(s, Long(s, offset + 16), offset, 0, 0) == Ok(Some(Short(s, offset + 10)))
    ensures Short(s, offset + 10) <= MAX_ARCHIVE_MEMBERS
    ensures Long(s, offset + 12) != 0xFFFF_FFFF && Long(s, offset + 16) != 0xFFFF_FFFF
  {
  }

  lemma FourParts(s: seq<Byte>, a: nat, b: nat, c: nat)
    requires a <= b <= c <= |s|
    ensures s == s[..a] + s[a..b] + s[b..c] + s[c..]
  {
  }

  /**
   An accepted file is an archive as the standard writes one: anything, a central directory of at most
   4096 headers tiled without a gap, its end record with the right count, size and position, and a
   comment that ends with the file.
   */
  lemma AcceptedIsAnArchive(bytes: seq<Byte>) returns (a: Archive)
    requires Preflight(bytes)
    ensures Representable(a) && bytes == Encode(a) && Bounded(a.headers) && !Zip64Marked(a)
  {
    var offset := SearchFinds(bytes, SearchStart(bytes), |bytes| - 3);
    AcceptedFields(bytes, offset);
    var start, n := Long(bytes, offset + 16), Short(bytes, offset + 10);
    EndRecordFrom(bytes, offset);
    var hs := TilingIsDirectory(bytes, start, offset, 0, 0, n);
    a := Archive(bytes[..start], hs, bytes[offset + EOCD_SIZE..]);
    FourParts(bytes, start, offset, offset + EOCD_SIZE);
  }
}
