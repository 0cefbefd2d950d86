/**
 Exactly which files the ZIP check accepts.  The search comes from the back, so an archive within the
 bounds can only be refused by something behind its end record that is an end record itself.  What that
 has to be is said here without the search and without the walk.
 */
module ZipAcceptance {
  import opened Results
  import opened Bytes
  import opened MemberName
  import opened Zip

  // ---- What an end record says ----

  /** The end record of a single-disk archive, with a comment that ends with the file. */
  predicate InPlace(s: seq<Byte>, o: nat) {
    && At(s, o, EOCD_SIGNATURE) && Has(s, o, EOCD_SIZE)
    && o + EOCD_SIZE + Short(s, o + 20) == |s|
    && Short(s, o + 4) == 0 && Short(s, o + 6) == 0 && Short(s, o + 8) == Short(s, o + 10)
  }

  predicate AsksForZip64(s: seq<Byte>, o: nat)
    requires Has(s, o, EOCD_SIZE)
  {
    Short(s, o + 10) == 0xFFFF || Long(s, o + 12) == 0xFFFF_FFFF || Long(s, o + 16) == 0xFFFF_FFFF
  }

  /** The directory that the record names ends where the record begins. */
  predicate NamesDirectory(s: seq<Byte>, o: nat)
    requires Has(s, o, EOCD_SIZE)
  {
    Long(s, o + 16) + Long(s, o + 12) == o
  }

  predicate NamesFit(hs: seq<CentralHeader>) {
    forall i :: 0 <= i < |hs| ==> |hs[i].name| <= MAX_ARCHIVE_MEMBER_NAME
  }

  /** These headers are written from `start` on, with names and metadata within the bounds. */
  predicate Written(s: seq<Byte>, start: nat, hs: seq<CentralHeader>) {
    && AllWritable(hs) && At(s, start, Directory(hs))
    && NamesFit(hs) && MetadataSize(hs) <= MAX_ARCHIVE_METADATA_SIZE
  }

  /** The next header has too long a name, or too much metadata together with those before it. */
  predicate Oversized(s: seq<Byte>, cursor: nat, metadata: nat) {
    && Has(s, cursor, CENTRAL_HEADER_SIZE) && At(s, cursor, CENTRAL_SIGNATURE)
    && (|| Short(s, cursor + 28) > MAX_ARCHIVE_MEMBER_NAME
        || metadata + Variable(s, cursor) > MAX_ARCHIVE_METADATA_SIZE)
  }

  /** The directory from `start` to `end` is exactly `n` headers within the bounds. */
  predicate Holds(s: seq<Byte>, start: nat, end: nat, n: nat, hs: seq<CentralHeader>) {
    && Written(s, start, hs) && start + |Directory(hs)| == end
    && |hs| == n <= MAX_ARCHIVE_MEMBERS
  }

  /** The directory breaks a bound after these headers, or with the last of them. */
  predicate Breaks(s: seq<Byte>, start: nat, end: nat, n: nat, hs: seq<CentralHeader>) {
    && Written(s, start, hs)
    && var next := start + |Directory(hs)|;
       || (|hs| <= MAX_ARCHIVE_MEMBERS && next < end && Oversized(s, next, MetadataSize(hs)))
       || (|hs| == n == MAX_ARCHIVE_MEMBERS + 1 && next <= end)
  }

  ghost predicate IsWithinBounds(s: seq<Byte>, start: nat, end: nat, n: nat) {
    exists hs :: Holds(s, start, end, n, hs)
  }

  ghost predicate BreaksBound(s: seq<Byte>, start: nat, end: nat, n: nat) {
    exists hs :: Breaks(s, start, end, n, hs)
  }

  ghost predicate Accepts(s: seq<Byte>, o: nat) {
    && InPlace(s, o) && !AsksForZip64(s, o) && NamesDirectory(s, o)
    && IsWithinBounds(s, Long(s, o + 16), o, Short(s, o + 10))
  }

  ghost predicate Refuses(s: seq<Byte>, o: nat) {
    && InPlace(s, o)
    && (|| AsksForZip64(s, o)
        || (NamesDirectory(s, o) && BreaksBound(s, Long(s, o + 16), o, Short(s, o + 10))))
  }

  ghost predicate Decides(s: seq<Byte>, o: nat) {
    Accepts(s, o) || Refuses(s, o)
  }

  /** Nothing behind this position accepts or refuses the file. */
  ghost predicate Latest(s: seq<Byte>, o: nat) {
    forall p: nat :: o < p ==> !Decides(s, p)
  }

  /** Something behind this position refuses the file, and nothing behind that decides. */
  ghost predicate Overruled(s: seq<Byte>, offset: nat) {
    exists o: nat :: offset < o && Refuses(s, o) && Latest(s, o)
  }

  // ---- The walk ----

  /** The walk takes the first of the headers laid here, none of which breaks a bound. */
  lemma WalkTurns(s: seq<Byte>, cursor: nat, mid: nat, end: nat, hs: seq<CentralHeader>, members: nat, metadata: nat)
    requires hs != [] && Laid(s, cursor, mid, hs) && mid <= end && NamesFit(hs)
    requires members <= MAX_ARCHIVE_MEMBERS && metadata + MetadataSize(hs) <= MAX_ARCHIVE_METADATA_SIZE
    ensures NamesFit(hs[1..]) && MetadataSize(hs) == VariableSize(hs[0]) + MetadataSize(hs[1..])
    ensures var next := cursor + CENTRAL_HEADER_SIZE + VariableSize(hs[0]);
            && Laid(s, next, mid, hs[1..])
            && Central(s, cursor, end, members, metadata)
               == if members == MAX_ARCHIVE_MEMBERS then Ok(Some(MAX_ARCHIVE_MEMBERS + 1))
                  else Central(s, next, end, members + 1, metadata + VariableSize(hs[0]))
  {
    LaidWithin(s, cursor, mid, hs);
    CentralStep(s, cursor, end, hs[0], members, metadata);
  }

  lemma LaidWithin(s: seq<Byte>, cursor: nat, mid: nat, hs: seq<CentralHeader>)
    requires hs != [] && Laid(s, cursor, mid, hs)
    ensures HeaderFields(s, cursor, hs[0])
    ensures var next := cursor + CENTRAL_HEADER_SIZE + VariableSize(hs[0]);
            next <= mid && Laid(s, next, mid, hs[1..])
  {
  }

  lemma {:induction false} WalkPast(s: seq<Byte>, cursor: nat, mid: nat, end: nat, hs: seq<CentralHeader>,
                                    members: nat, metadata: nat)
    requires Laid(s, cursor, mid, hs) && mid <= end && NamesFit(hs)
    requires members + |hs| <= MAX_ARCHIVE_MEMBERS && metadata + MetadataSize(hs) <= MAX_ARCHIVE_METADATA_SIZE
    ensures Central(s, cursor, end, members, metadata)
         == Central(s, mid, end, members + |hs|, metadata + MetadataSize(hs))
    decreases |hs|
  {
    if hs != [] {
      var next := cursor + CENTRAL_HEADER_SIZE + VariableSize(hs[0]);
      WalkTurns(s, cursor, mid, end, hs, members, metadata);
      WalkPast(s, next, mid, end, hs[1..], members + 1, metadata + VariableSize(hs[0]));
    }
  }

  lemma {:induction false} WalkOver(s: seq<Byte>, cursor: nat, mid: nat, end: nat, hs: seq<CentralHeader>,
                                    members: nat, metadata: nat)
    requires Laid(s, cursor, mid, hs) && mid <= end && NamesFit(hs)
    requires members <= MAX_ARCHIVE_MEMBERS && members + |hs| == MAX_ARCHIVE_MEMBERS + 1
    requires metadata + MetadataSize(hs) <= MAX_ARCHIVE_METADATA_SIZE
    ensures Central(s, cursor, end, members, metadata) == Ok(Some(MAX_ARCHIVE_MEMBERS + 1))
    decreases |hs|
  {
    WalkTurns(s, cursor, mid, end, hs, members, metadata);
    if members < MAX_ARCHIVE_MEMBERS {
      var next := cursor + CENTRAL_HEADER_SIZE + VariableSize(hs[0]);
      WalkOver(s, next, mid, end, hs[1..], members + 1, metadata + VariableSize(hs[0]));
    }
  }

  lemma {:induction false} CentralAtMost(s: seq<Byte>, cursor: nat, end: nat, members: nat, metadata: nat)
    requires members <= MAX_ARCHIVE_MEMBERS
    ensures var r := Central(s, cursor, end, members, metadata);
            r.Ok? && r.value.Some? ==> r.value.value <= MAX_ARCHIVE_MEMBERS + 1
    decreases |s| - cursor
  {
    if cursor < end && Has(s, cursor, CENTRAL_HEADER_SIZE) {
      var next := cursor + CENTRAL_HEADER_SIZE + Variable(s, cursor);
      if next <= |s| && members < MAX_ARCHIVE_MEMBERS {
        CentralAtMost(s, next, end, members + 1, metadata + Variable(s, cursor));
      }
    }
  }

  /** One turn of a walk that goes on. */
  predicate Turns(s: seq<Byte>, cursor: nat, end: nat, metadata: nat) {
    && cursor < end && Has(s, cursor, CENTRAL_HEADER_SIZE) && At(s, cursor, CENTRAL_SIGNATURE)
    && !Oversized(s, cursor, metadata)
    && cursor + CENTRAL_HEADER_SIZE + Variable(s, cursor) <= end
  }

  /** The walk from here breaks a bound: on a header's sizes, or on the number of headers. */
  predicate BrokenWalk(s: seq<Byte>, cursor: nat, end: nat, members: nat, metadata: nat, oversized: bool) {
    if oversized then Central(s, cursor, end, members, metadata).Err?
    else Central(s, cursor, end, members, metadata) == Ok(Some(MAX_ARCHIVE_MEMBERS + 1))
  }

  lemma BrokenStep(s: seq<Byte>, cursor: nat, end: nat, members: nat, metadata: nat, oversized: bool)
    requires members <= MAX_ARCHIVE_MEMBERS && BrokenWalk(s, cursor, end, members, metadata, oversized)
    ensures cursor < end
    ensures Oversized(s, cursor, metadata) ==> oversized
    ensures !Oversized(s, cursor, metadata) ==>
              && Turns(s, cursor, end, metadata)
              && (members == MAX_ARCHIVE_MEMBERS ==> !oversized)
              && (members < MAX_ARCHIVE_MEMBERS ==>
                    BrokenWalk(s, cursor + CENTRAL_HEADER_SIZE + Variable(s, cursor), end, members + 1,
                               metadata + Variable(s, cursor), oversized))
  {
  }

  /** A header in front of a written directory. */
  lemma Prepend(s: seq<Byte>, cursor: nat, h: CentralHeader, rest: seq<CentralHeader>)
    requires Writable(h) && AllWritable(rest)
    requires At(s, cursor, WriteHeader(h)) && At(s, cursor + |WriteHeader(h)|, Directory(rest))
    ensures AllWritable([h] + rest) && At(s, cursor, Directory([h] + rest))
    ensures |Directory([h] + rest)| == |WriteHeader(h)| + |Directory(rest)|
    ensures MetadataSize([h] + rest) == VariableSize(h) + MetadataSize(rest)
  {
    assert ([h] + rest)[0] == h && ([h] + rest)[1..] == rest;
    Cut(s, cursor, cursor + |WriteHeader(h)|, cursor + |WriteHeader(h)| + |Directory(rest)|);
  }

  /** Where a walk that breaks a bound stops. */
  predicate Stops(s: seq<Byte>, next: nat, end: nat, members: nat, metadata: nat, oversized: bool) {
    if oversized then members <= MAX_ARCHIVE_MEMBERS && next < end && Oversized(s, next, metadata)
    else members == MAX_ARCHIVE_MEMBERS + 1 && next <= end
  }

  /** These are the headers that such a walk has passed. */
  predicate Passed(s: seq<Byte>, cursor: nat, end: nat, members: nat, metadata: nat, oversized: bool,
                   hs: seq<CentralHeader>) {
    && AllWritable(hs) && NamesFit(hs) && At(s, cursor, Directory(hs))
    && metadata + MetadataSize(hs) <= MAX_ARCHIVE_METADATA_SIZE
    && Stops(s, cursor + |Directory(hs)|, end, members + |hs|, metadata + MetadataSize(hs), oversized)
  }

  lemma PassedNone(s: seq<Byte>, cursor: nat, end: nat, members: nat, metadata: nat, oversized: bool)
    requires cursor <= |s| && metadata <= MAX_ARCHIVE_METADATA_SIZE
    requires Stops(s, cursor, end, members, metadata, oversized)
    ensures Passed(s, cursor, end, members, metadata, oversized, [])
  {
  }

  lemma FirstFits(h: CentralHeader, rest: seq<CentralHeader>)
    requires |h.name| <= MAX_ARCHIVE_MEMBER_NAME && NamesFit(rest)
    ensures NamesFit([h] + rest)
  {
  }

  lemma PassedOne(s: seq<Byte>, cursor: nat, end: nat, members: nat, metadata: nat, oversized: bool,
                  h: CentralHeader, rest: seq<CentralHeader>)
    requires Writable(h) && At(s, cursor, WriteHeader(h)) && |h.name| <= MAX_ARCHIVE_MEMBER_NAME
    requires Passed(s, cursor + |WriteHeader(h)|, end, members + 1, metadata + VariableSize(h), oversized, rest)
    ensures Passed(s, cursor, end, members, metadata, oversized, [h] + rest)
  {
    Prepend(s, cursor, h, rest);
    FirstFits(h, rest);
  }

  lemma PassedTurn(s: seq<Byte>, cursor: nat, end: nat, members: nat, metadata: nat, oversized: bool,
                   rest: seq<CentralHeader>)
    returns (hs: seq<CentralHeader>)
    requires end <= |s| && Turns(s, cursor, end, metadata)
    requires Passed(s, cursor + CENTRAL_HEADER_SIZE + Variable(s, cursor), end, members + 1,
                    metadata + Variable(s, cursor), oversized, rest)
    ensures Passed(s, cursor, end, members, metadata, oversized, hs)
  {
    HeaderFromWrites(s, cursor);
    PassedOne(s, cursor, end, members, metadata, oversized, HeaderFrom(s, cursor), rest);
    hs := [HeaderFrom(s, cursor)] + rest;
  }

  /** The headers a walk has passed when it breaks a bound. */
  lemma {:induction false} BrokenPassed(s: seq<Byte>, cursor: nat, end: nat, members: nat, metadata: nat,
                                        oversized: bool)
    returns (hs: seq<CentralHeader>)
    requires end <= |s| && members <= MAX_ARCHIVE_MEMBERS && metadata <= MAX_ARCHIVE_METADATA_SIZE
    requires BrokenWalk(s, cursor, end, members, metadata, oversized)
    ensures Passed(s, cursor, end, members, metadata, oversized, hs)
    decreases |s| - cursor
  {
    BrokenStep(s, cursor, end, members, metadata, oversized);
    hs := [];
    if Oversized(s, cursor, metadata) {
      PassedNone(s, cursor, end, members, metadata, true);
    } else {
      var next := cursor + CENTRAL_HEADER_SIZE + Variable(s, cursor);
      if members < MAX_ARCHIVE_MEMBERS {
        hs := BrokenPassed(s, next, end, members + 1, metadata + Variable(s, cursor), oversized);
      } else {
        PassedNone(s, next, end, members + 1, metadata + Variable(s, cursor), false);
      }
      hs := PassedTurn(s, cursor, end, members, metadata, oversized, hs);
    }
  }

  lemma WalkHolds(s: seq<Byte>, start: nat, end: nat, n: nat)
    requires start <= end <= |s|
    ensures Central(s, start, end, 0, 0) == Ok(Some(n)) && n <= MAX_ARCHIVE_MEMBERS
       <==> IsWithinBounds(s, start, end, n)
  {
    if Central(s, start, end, 0, 0) == Ok(Some(n)) && n <= MAX_ARCHIVE_MEMBERS {
      var hs := TilingIsDirectory(s, start, end, 0, 0, n);
      assert Holds(s, start, end, n, hs);
    }
    if IsWithinBounds(s, start, end, n) {
      var hs :| Holds(s, start, end, n, hs);
      CentralOfDirectory(s, start, end, hs);
    }
  }

  lemma OversizedFails(s: seq<Byte>, cursor: nat, end: nat, members: nat, metadata: nat)
    requires cursor < end && Oversized(s, cursor, metadata)
    ensures Central(s, cursor, end, members, metadata).Err?
  {
  }

  lemma WrittenIsLaid(s: seq<Byte>, start: nat, hs: seq<CentralHeader>)
    requires Written(s, start, hs)
    ensures Laid(s, start, start + |Directory(hs)|, hs)
  {
    DirectoryLaid(s, start, start + |Directory(hs)|, hs);
  }

  lemma BreaksStops(s: seq<Byte>, start: nat, end: nat, n: nat, hs: seq<CentralHeader>)
    requires Breaks(s, start, end, n, hs)
    ensures var r := Central(s, start, end, 0, 0);
            r.Err? || (r == Ok(Some(n)) && n > MAX_ARCHIVE_MEMBERS)
  {
    WrittenIsLaid(s, start, hs);
    WalkStops(s, start, start + |Directory(hs)|, end, n, hs);
  }

  lemma WalkStops(s: seq<Byte>, start: nat, next: nat, end: nat, n: nat, hs: seq<CentralHeader>)
    requires Laid(s, start, next, hs) && NamesFit(hs) && MetadataSize(hs) <= MAX_ARCHIVE_METADATA_SIZE
    requires || (|hs| <= MAX_ARCHIVE_MEMBERS && next < end && Oversized(s, next, MetadataSize(hs)))
             || (|hs| == n == MAX_ARCHIVE_MEMBERS + 1 && next <= end)
    ensures var r := Central(s, start, end, 0, 0);
            r.Err? || (r == Ok(Some(n)) && n > MAX_ARCHIVE_MEMBERS)
  {
    if |hs| <= MAX_ARCHIVE_MEMBERS {
      WalkPast(s, start, next, end, hs, 0, 0);
      OversizedFails(s, next, end, |hs|, MetadataSize(hs));
    } else {
      WalkOver(s, start, next, end, hs, 0, 0);
    }
  }

  lemma WalkBreaks(s: seq<Byte>, start: nat, end: nat, n: nat)
    requires start <= end <= |s|
    ensures Central(s, start, end, 0, 0).Err?
         || (Central(s, start, end, 0, 0) == Ok(Some(n)) && n > MAX_ARCHIVE_MEMBERS)
       <==> BreaksBound(s, start, end, n)
  {
    var r := Central(s, start, end, 0, 0);
    CentralAtMost(s, start, end, 0, 0);
    if r.Err? || (r == Ok(Some(n)) && n > MAX_ARCHIVE_MEMBERS) {
      var hs := BrokenPassed(s, start, end, 0, 0, r.Err?);
      assert Breaks(s, start, end, n, hs);
    }
    if BreaksBound(s, start, end, n) {
      var hs :| Breaks(s, start, end, n, hs);
      BreaksStops(s, start, end, n, hs);
    }
  }

  // ---- The search ----

  /** What the search makes of a record in its place depends on the walk alone. */
  lemma JudgeInPlace(s: seq<Byte>, o: nat)
    ensures !InPlace(s, o) ==> Judge(s, o).Skip?
    ensures InPlace(s, o) && AsksForZip64(s, o) ==> Judge(s, o).Reject?
    ensures InPlace(s, o) && !AsksForZip64(s, o) && !NamesDirectory(s, o) ==> Judge(s, o).Skip?
    ensures InPlace(s, o) && !AsksForZip64(s, o) && NamesDirectory(s, o) ==>
              var r, n := Central(s, Long(s, o + 16), o, 0, 0), Short(s, o + 10);
              && (Judge(s, o).Accept? <==> r == Ok(Some(n)) && n <= MAX_ARCHIVE_MEMBERS)
              && (Judge(s, o).Reject? <==> r.Err? || (r == Ok(Some(n)) && n > MAX_ARCHIVE_MEMBERS))
  {
  }

  /** The guards of the search, without the search and without the walk. */
  lemma JudgedExactly(s: seq<Byte>, o: nat)
    ensures Judge(s, o).Accept? <==> Accepts(s, o)
    ensures Judge(s, o).Reject? <==> Refuses(s, o)
  {
    JudgeInPlace(s, o);
    if InPlace(s, o) && NamesDirectory(s, o) {
      WalkHolds(s, Long(s, o + 16), o, Short(s, o + 10));
      WalkBreaks(s, Long(s, o + 16), o, Short(s, o + 10));
    }
  }

  /** The last of the positions that decide. */
  lemma {:induction false} LastOf(decides: nat -> bool, bound: nat, offset: nat) returns (o: nat)
    requires offset < bound && decides(offset)
    ensures offset <= o < bound && decides(o)
    ensures forall p :: o < p < bound ==> !decides(p)
    decreases bound
  {
    if decides(bound - 1) {
      o := bound - 1;
    } else {
      o := LastOf(decides, bound - 1, offset);
    }
  }

  lemma DecidesInRange(s: seq<Byte>, o: nat)
    requires Decides(s, o)
    ensures SearchStart(s) <= o < |s| - 3
  {
  }

  /** The decision of the search is that of the last position that decides. */
  lemma LatestDecides(s: seq<Byte>, o: nat)
    requires Decides(s, o) && Latest(s, o)
    ensures Preflight(s) <==> Accepts(s, o)
  {
    DecidesInRange(s, o);
    JudgedExactly(s, o);
    forall p: nat | o < p < |s| - 3 ensures Judge(s, p).Skip? {
      JudgedExactly(s, p);
      assert !Decides(s, p);
    }
    LastDecides(s, SearchStart(s), |s| - 3, o);
  }

  lemma NothingBeyond(s: seq<Byte>, o: nat, decides: nat -> bool)
    requires forall p: nat :: decides(p) == Decides(s, p)
    requires forall p :: o < p < |s| ==> !decides(p)
    ensures Latest(s, o)
  {
    forall p: nat | o < p ensures !Decides(s, p) {
      assert decides(p) == Decides(s, p);
      if |s| <= p {
        BeyondTheEnd(s, p);
      }
    }
  }

  lemma BeyondTheEnd(s: seq<Byte>, o: nat)
    requires |s| <= o
    ensures !Decides(s, o)
  {
  }

  lemma LatestBehind(s: seq<Byte>, offset: nat) returns (o: nat)
    requires Decides(s, offset)
    ensures offset <= o && Decides(s, o) && Latest(s, o)
  {
    var decides := (p: nat) => Decides(s, p);
    DecidesInRange(s, offset);
    assert decides(offset);
    o := LastOf(decides, |s|, offset);
    NothingBeyond(s, o, decides);
  }

  /** A record that accepts is overruled only by one behind it that refuses. */
  lemma OverruledExactly(s: seq<Byte>, offset: nat)
    requires Accepts(s, offset)
    ensures Preflight(s) <==> !Overruled(s, offset)
  {
    var o := LatestBehind(s, offset);
    LatestDecides(s, o);
    JudgedExactly(s, o);
    if o != offset && Refuses(s, o) {
      assert Overruled(s, offset);
    }
    if q: nat :| offset < q && Refuses(s, q) && Latest(s, q) {
      LatestDecides(s, q);
      JudgedExactly(s, q);
    }
  }

  // ---- Archives ----

  /** Where the end record of an archive is. */
  function EndOf(a: Archive): nat
    requires Representable(a)
  {
    |a.prefix| + |Directory(a.headers)|
  }

  predicate WithinBounds(a: Archive)
    requires Representable(a)
  {
    Bounded(a.headers) && !Zip64Marked(a)
  }

  lemma OwnRecord(a: Archive)
    requires Representable(a)
    ensures Accepts(Encode(a), EndOf(a)) <==> WithinBounds(a)
  {
    PartsOf(a);
    OwnRecordIn(Encode(a), a);
  }

  lemma OwnRecordIn(s: seq<Byte>, a: Archive)
    requires Representable(a) && |s| == EndOf(a) + EOCD_SIZE + |a.comment|
    requires At(s, |a.prefix|, Directory(a.headers))
    requires At(s, EndOf(a), EndRecord(|a.headers|, |Directory(a.headers)|, |a.prefix|, |a.comment|))
    ensures Accepts(s, EndOf(a)) <==> WithinBounds(a)
  {
    JudgeParts(s, a, EndOf(a));
    JudgedExactly(s, EndOf(a));
  }

  /**
   An archive within the bounds is accepted exactly unless something behind its end record is an end
   record in place that asks for ZIP64, or that names a directory ending there which breaks a bound, and
   nothing behind that is an end record the search decides on.
   */
  lemma AcceptedExactly(a: Archive)
    requires Representable(a) && WithinBounds(a)
    ensures Preflight(Encode(a)) <==> !Overruled(Encode(a), EndOf(a))
  {
    OwnRecord(a);
    OverruledExactly(Encode(a), EndOf(a));
  }

  /** One way to read a file as an archive. */
  ghost predicate ReadsAs(s: seq<Byte>, a: Archive) {
    Representable(a) && WithinBounds(a) && s == Encode(a) && !Overruled(s, EndOf(a))
  }

  /** The files that are accepted, all of them. */
  lemma AcceptedFilesExactly(s: seq<Byte>)
    ensures Preflight(s) <==> exists a :: ReadsAs(s, a)
  {
    if Preflight(s) {
      var a := AcceptedIsAnArchive(s);
      AcceptedExactly(a);
      assert ReadsAs(s, a);
    }
    if a :| ReadsAs(s, a) {
      AcceptedExactly(a);
    }
  }

  /** No other end record is in place, whatever signatures the file contains. */
  ghost predicate SoleRecord(s: seq<Byte>, offset: nat) {
    forall o: nat :: SearchStart(s) <= o && o != offset ==> !InPlace(s, o)
  }

  /** An archive whose end record is the only one in place is accepted exactly when it meets the bounds. */
  lemma SoleRecordExactly(a: Archive)
    requires Representable(a) && SoleRecord(Encode(a), EndOf(a))
    ensures Preflight(Encode(a)) <==> WithinBounds(a)
  {
    var s := Encode(a);
    OwnRecord(a);
    if Preflight(s) {
      var o := SearchFinds(s, SearchStart(s), |s| - 3);
      JudgedExactly(s, o);
      assert o == EndOf(a);
    }
    if WithinBounds(a) {
      DecidesInRange(s, EndOf(a));
      OverruledExactly(s, EndOf(a));
    }
  }

  // ---- Comments ----

  /** A comment that is itself an end record asking for ZIP64 forbids every archive. */
  lemma CommentCanForbid(a: Archive)
    requires Representable(a) && a.comment == EndRecord(0xFFFF, 0, 0, 0)
    ensures !Preflight(Encode(a))
  {
    var s := Encode(a);
    var o := EndOf(a) + EOCD_SIZE;
    PartsOf(a);
    assert s[o..] == a.comment && At(s, o, a.comment);
    EndRecordValues(s, o, 0xFFFF, 0, 0, 0);
    LastRecordDecides(s, o);
  }

  /** Nothing fits behind an end record at the very end. */
  lemma LastRecordDecides(s: seq<Byte>, o: nat)
    requires InPlace(s, o) && o + EOCD_SIZE == |s| && AsksForZip64(s, o)
    ensures !Preflight(s)
  {
    assert Refuses(s, o) && Latest(s, o);
    LatestDecides(s, o);
  }

  lemma {:induction false} DirectorySize(hs: seq<CentralHeader>)
    requires AllWritable(hs)
    ensures |Directory(hs)| == CENTRAL_HEADER_SIZE * |hs| + MetadataSize(hs)
  {
    if hs != [] {
      DirectorySize(hs[1..]);
    }
  }

  /** A comment too short to hold an end record forbids nothing, whatever it contains. */
  lemma ShortCommentIsHarmless(a: Archive)
    requires Representable(a) && WithinBounds(a) && |a.comment| < EOCD_SIZE
    ensures Preflight(Encode(a))
  {
    var s, offset := Encode(a), EndOf(a);
    PartsOf(a);
    DirectorySize(a.headers);
    EndRecordValues(s, offset, |a.headers|, |Directory(a.headers)|, |a.prefix|, |a.comment|);
    forall o: nat | offset < o ensures !InPlace(s, o) {
      NothingBehind(s, offset, o, |a.headers|, |Directory(a.headers)|, |a.comment|);
    }
    AcceptedExactly(a);
  }

  /** The bytes of the end record that matter for a signature inside it. */
  lemma RecordBytes(s: seq<Byte>, offset: nat, members: nat, size: nat, comment: nat)
    requires At(s, offset, EOCD_SIGNATURE) && Has(s, offset, EOCD_SIZE)
    requires Short(s, offset + 4) == 0 && Short(s, offset + 6) == 0
    requires Short(s, offset + 8) == members == Short(s, offset + 10) && members <= MAX_ARCHIVE_MEMBERS
    requires Long(s, offset + 12) == size < 0x100_0000 && Short(s, offset + 20) == comment < 256
    ensures forall i :: offset < i <= offset + 7 ==> s[i] != 80
    ensures s[offset + 9] <= 16 && s[offset + 11] <= 16 && s[offset + 15] == 0
    ensures s[offset + 20] == comment && s[offset + 21] == 0
  {
    SignatureBytes(s, offset);
  }

  lemma SignatureBytes(s: seq<Byte>, o: nat)
    requires At(s, o, EOCD_SIGNATURE)
    ensures s[o] == 80 && s[o + 1] == 75 && s[o + 2] == 5 && s[o + 3] == 6
  {
    var part := s[o..o + 4];
    assert s[o] == part[0] && s[o + 1] == part[1] && s[o + 2] == part[2] && s[o + 3] == part[3];
  }

  /** Signatures inside the end record are excluded by its fields, those inside the comment by its length. */
  lemma NothingBehind(s: seq<Byte>, offset: nat, o: nat, members: nat, size: nat, comment: nat)
    requires offset < o && |s| == offset + EOCD_SIZE + comment && comment < EOCD_SIZE
    requires At(s, offset, EOCD_SIGNATURE) && Short(s, offset + 4) == 0 && Short(s, offset + 6) == 0
    requires Short(s, offset + 8) == members == Short(s, offset + 10) && members <= MAX_ARCHIVE_MEMBERS
    requires Long(s, offset + 12) == size < 0x100_0000 && Short(s, offset + 20) == comment
    ensures !InPlace(s, o)
  {
    RecordBytes(s, offset, members, size, comment);
    if At(s, o, EOCD_SIGNATURE) && Has(s, o, EOCD_SIZE) {
      SignatureBytes(s, o);
      Overlaps(s, offset, o - offset, comment);
    }
  }

  /** A signature that overlaps the end record is at its start field, and then no record is in place there. */
  lemma Overlaps(s: seq<Byte>, offset: nat, k: nat, comment: nat)
    requires 0 < k <= comment < EOCD_SIZE && |s| == offset + EOCD_SIZE + comment
    requires s[offset + k] == 80 && s[offset + k + 1] == 75 && s[offset + k + 2] == 5 && s[offset + k + 3] == 6
    requires forall i :: offset < i <= offset + 7 ==> s[i] != 80
    requires s[offset + 9] <= 16 && s[offset + 11] <= 16 && s[offset + 15] == 0
    requires s[offset + 20] == comment && s[offset + 21] == 0
    ensures k == 16 && Short(s, offset + k + 4) != 0
  {
  }
}
