/**
 The tar loop itself, reading through the bounded reader and updating its variables step by step, and
 the proof that it computes the recursive inspection of the decompressed stream.
 */
module TarReader {
  import opened Results
  import opened Bytes
  import opened MemberName
  import opened TarHeader
  import opened TarGrammar
  import opened Pax
  import opened Tar
  import opened Limit

  const MAX_TAR_DECOMPRESSED_SIZE: nat := MAX_UNCOMPRESSED_SIZE + 32 * 1024 * 1024

  /** Read a member through a reader cut off at its declared size, keeping the bytes only on request. */
  method ReadMemberData(archive: DecompressedLimit, size: nat, collect: bool) returns (r: Archived<seq<Byte>>)
    requires archive.Valid() && !archive.Overrun()
    modifies archive, archive.inner
    ensures archive.Valid()
    ensures r.Ok? <==> size <= MAX_MEMBER_SIZE && old(archive.delivered) + size <= archive.Reach()
    ensures r.Ok? ==> !archive.Overrun() && archive.delivered == old(archive.delivered) + size
    ensures r.Ok? ==> r.value == if collect then archive.inner.data[old(archive.delivered)..archive.delivered] else []
  {
    var data: seq<Byte> := [];
    var actual := 0;
    ghost var from := archive.delivered;
    while true
      invariant archive.Valid() && !archive.Overrun()
      invariant actual <= size && actual <= MAX_MEMBER_SIZE
      invariant archive.delivered == from + actual <= archive.Reach()
      invariant data == if collect then archive.inner.data[from..archive.delivered] else []
      decreases size - actual
    {
      if size == actual {
        break;
      }
      var read := archive.Read(Min(64 * 1024, size - actual));
      if read.Err? {
        return Err(Malformed);
      }
      if read.value == [] {
        break;
      }
      if actual + |read.value| > MAX_MEMBER_SIZE || actual + |read.value| > size {
        return Err(Malformed);
      }
      actual := actual + |read.value|;
      if collect {
        data := data + read.value;
      }
    }
    if actual != size {
      return Err(Malformed);
    }
    r := Ok(data);
  }

  /** The zero bytes up to the next block. */
  method ReadPadding(archive: DecompressedLimit, size: nat) returns (ok: bool)
    requires archive.Valid() && !archive.Overrun()
    modifies archive, archive.inner
    ensures archive.Valid()
    ensures ok <==> old(archive.delivered) + Padding(size) <= archive.Reach()
                    && AllZero(archive.inner.data[old(archive.delivered)..old(archive.delivered) + Padding(size)])
    ensures ok ==> !archive.Overrun() && archive.delivered == old(archive.delivered) + Padding(size)
  {
    var padding := Padding(size);
    if padding == 0 {
      return true;
    }
    var bytes := archive.ReadExact(padding);
    ok := bytes.Ok? && AllZero(bytes.value);
  }

  /** Data and padding of one record; the bytes are kept only on request. */
  method ReadTarRecord(archive: DecompressedLimit, size: nat, collect: bool) returns (r: Archived<seq<Byte>>)
    requires archive.Valid() && !archive.Overrun()
    modifies archive, archive.inner
    ensures archive.Valid()
    ensures r.Ok? <==> size <= MAX_MEMBER_SIZE
                       && old(archive.delivered) + size + Padding(size) <= archive.Reach()
                       && AllZero(archive.inner.data[old(archive.delivered) + size..old(archive.delivered) + size
                           + Padding(size)])
    ensures r.Ok? ==> !archive.Overrun() && archive.delivered == old(archive.delivered) + size + Padding(size)
    ensures r.Ok? ==> r.value == if collect then archive.inner.data[old(archive.delivered)..old(archive.delivered)
        + size] else []
  {
    r := ReadMemberData(archive, size, collect);
    if r.Ok? {
      var padded := ReadPadding(archive, size);
      if !padded {
        return Err(Malformed);
      }
    }
  }

  lemma NotAllZero(data: seq<Byte>, from: nat, a: nat, b: nat)
    requires from <= a <= b <= |data| && !AllZero(data[a..b])
    ensures !AllZero(data[from..])
  {
    var i :| 0 <= i < b - a && data[a..b][i] != 0;
    assert data[from..][a - from + i] == data[a..b][i];
  }

  /** After the first zero block: everything left is zero, to a clean end. */
  method ReadTrailer(archive: DecompressedLimit) returns (ok: bool)
    requires archive.Valid() && !archive.Overrun()
    modifies archive, archive.inner
    ensures ok <==> archive.Whole() && AllZero(archive.inner.data[old(archive.delivered)..])
  {
    ghost var from, data := archive.delivered, archive.inner.data;
    while true
      invariant archive.Valid() && !archive.Overrun() && from <= archive.delivered
      invariant AllZero(data[from..archive.delivered])
      decreases |archive.inner.data| - archive.delivered
    {
      ghost var here := archive.delivered;
      var read := archive.Read(8192);
      if read.Err? {
        return false;
      }
      if read.value == [] {
        assert data[from..] == data[from..archive.delivered];
        break;
      }
      if !AllZero(read.value) {
        NotAllZero(data, from, here, archive.delivered);
        return false;
      }
      assert data[from..archive.delivered] == data[from..here] + read.value;
    }
    ok := true;
  }

  lemma SameSlice(a: seq<Byte>, from: nat, b: seq<Byte>, start: nat, i: nat, j: nat)
    requires from <= |a| && start <= |b| && a[from..] == b[start..] && i <= j <= |a| - from
    ensures j <= |b| - start && a[from + i..from + j] == b[start + i..start + j]
  {
    assert |a[from..]| == |b[start..]|;
    SliceOfSlice(a, from, |a|, i, j);
    SliceOfSlice(b, start, |b|, i, j);
    assert a[from..|a|] == a[from..] && b[start..|b|] == b[start..];
  }

  /** Equal rests have equal slices. */
  lemma SameSlices(a: seq<Byte>, from: nat, b: seq<Byte>, start: nat, size: nat, end: nat)
    requires from <= |a| && start <= |b| && a[from..] == b[start..] && size <= end && from + end <= |a|
    ensures start + end <= |b|
    ensures a[from..from + size] == b[start..start + size]
    ensures a[from + size..from + end] == b[start + size..start + end]
    ensures a[from + end..] == b[start + end..]
  {
    var rest := a[from..];
    assert |rest| == |a| - from == |b| - start;
    SameSlice(a, from, b, start, 0, size);
    SameSlice(a, from, b, start, size, end);
    SameSlice(a, from, b, start, end, |rest|);
    assert a[from + end..] == a[from + end..from + |rest|];
    assert b[start + end..] == b[start + end..start + |rest|];
  }

  /** What becomes of the first record once its header has been accepted. */
  predicate Outcome(record: Archived<(State, nat)>, w: Wanted, st: State, stream: seq<Byte>, demand: Demand) {
    var n := DataSize(demand);
    if !Complete(stream, n) then record.Err?
    else
      var next := Absorb(w, st, demand, stream[512..512 + n]);
      if next.Err? then record.Err? else record == Ok((next.value, 512 + n + Padding(n)))
  }

  lemma RefusedHeader(w: Wanted, st: State, stream: seq<Byte>)
    requires |stream| >= 512 && Announced(w, st, stream[..512]).Err?
    ensures Record(TarRules(w), st, stream).Err?
  {
    RecordCases(TarRules(w), st, stream);
  }

  lemma OutcomeOfDemand(r: Rules<State>, w: Wanted, st: State, stream: seq<Byte>, demand: Demand)
    requires |stream| >= 512 && r.demand(st, stream[..512]) == Ok(DataSize(demand))
    requires var n := DataSize(demand);
             Complete(stream, n)
             ==> r.absorb(st, stream[..512], stream[512..512 + n]) == Absorb(w, st, demand, stream[512..512 + n])
    ensures Outcome(Record(r, st, stream), w, st, stream, demand)
  {
    RecordCases(r, st, stream);
  }

  lemma AcceptedHeader(w: Wanted, st: State, stream: seq<Byte>, demand: Demand)
    requires |stream| >= 512 && Announced(w, st, stream[..512]) == Ok(DataSize(demand))
    requires Require(w, st, stream[..512]) == Ok(demand)
    ensures Outcome(Record(TarRules(w), st, stream), w, st, stream, demand)
  {
    var n := DataSize(demand);
    DemandedBy(w, st, stream[..512], demand, if Complete(stream, n) then stream[512..512 + n] else []);
    OutcomeOfDemand(TarRules(w), w, st, stream, demand);
  }

  lemma MemberHeader(w: Wanted, st: State, stream: seq<Byte>, size: nat)
    requires |stream| >= 512 && st.index < MAX_ARCHIVE_MEMBERS && ChecksumMatches(stream[..512])
    requires Size(stream[..512]) == Some(size) && !IsMetadata(KindOf(stream[..512]))
    ensures var demand := MemberDemand(w, st, stream[..512], size);
            var record := Record(TarRules(w), st, stream);
            && (demand.Err? ==> record.Err?)
            && (demand.Ok? ==>
                  && DataSize(demand.value) <= MAX_MEMBER_SIZE
                  && Outcome(record, w, st, stream, demand.value))
  {
    var demand := MemberDemand(w, st, stream[..512], size);
    MemberDemanded(w, st, stream[..512], size);
    if demand.Err? {
      RefusedHeader(w, st, stream);
    } else {
      AcceptedHeader(w, st, stream, demand.value);
    }
  }

  /** A record taken extends the records consumed. */
  lemma NextRecord(r: Rules<State>, st: State, data: seq<Byte>, from: nat, to: nat, entries: seq<Entry>)
    requires from <= to <= |data| && |data[from..]| >= 512 && data[..from] == Layout(entries)
    requires Record(r, st, data[from..]).Ok?
    requires data[to..] == data[from..][Record(r, st, data[from..]).value.1..]
    ensures data[..to] == Layout(entries + [EntryAt(r, st, data[from..])])
  {
    var stream := data[from..];
    var e := EntryAt(r, st, stream);
    EntryOfRecord(r, st, stream);
    LayoutSnoc(entries, e);
    assert |data[to..]| == |data| - to;
    assert stream[..to - from] == Encoded(e);
    assert data[..to] == data[..from] + stream[..to - from];
  }

  /** The state once a member's header has been accepted. */
  function Entered(st: State, demand: Demand): State
    requires !demand.Metadata?
  {
    st.(names := st.names + {demand.path}, total := st.total + DataSize(demand), longName := None, longLink := false,
        local := None)
  }

  /** What the reader owes: the inspection of the whole stream, or an error if it is cut off. */
  function Verdict(w: Wanted, stream: seq<Byte>, sound: bool): Archived<seq<Byte>> {
    if sound && |stream| <= MAX_TAR_DECOMPRESSED_SIZE then Inspect(w, stream) else Err(Malformed)
  }

  /** The variables of the loop, updated record by record. */
  class TarInspection {
    const w: Wanted
    const archive: DecompressedLimit
    const globalPax: OwnedPaxOverrides
    var index: nat
    var names: set<seq<Byte>>
    var total: nat
    var rootSeen: bool
    var payload: Option<seq<Byte>>
    var longName: Option<seq<Byte>>
    var longLink: Option<seq<Byte>>
    var pendingPax: Option<seq<Byte>>

    constructor (w: Wanted, archive: DecompressedLimit)
      requires archive.Valid() && !archive.Overrun() && archive.delivered == 0
      ensures this.w == w && this.archive == archive && fresh(globalPax)
      ensures Valid() && State() == START
    {
      this.w, this.archive := w, archive;
      globalPax := new OwnedPaxOverrides();
      index, names, total, rootSeen, payload := 0, {}, 0, false, None;
      longName, longLink, pendingPax := None, None, None;
    }

    ghost predicate Valid()
      reads this, archive, archive.inner
    {
      && archive.Valid() && !archive.Overrun() && archive.delivered % 512 == 0
      && (pendingPax.Some? ==> Parse(pendingPax.value).Ok?)
    }

    /** Local PAX data is kept unparsed until its member comes. */
    ghost function State(): State
      reads this, globalPax
      requires pendingPax.Some? ==> Parse(pendingPax.value).Ok?
    {
      Tar.State(index, names, total, rootSeen, payload, longName, longLink.Some?,
                if pendingPax.Some? then Some(Parse(pendingPax.value).value) else None,
                globalPax.State())
    }

    /** What is still to be delivered. */
    ghost function Rest(): seq<Byte>
      reads archive, archive.inner
      requires archive.Valid()
    {
      archive.inner.data[archive.delivered..]
    }

    /** The record at the front of `stream` has been taken: state and position are those after it. */
    ghost predicate Took(before: State, stream: seq<Byte>)
      reads this, globalPax, archive, archive.inner
    {
      && Valid() && |stream| >= 512
      && var record := Record(TarRules(w), before, stream);
         record.Ok? && record.value.0 == State() && Rest() == stream[record.value.1..]
    }

    /** The record cannot be taken, or the stream does not reach its end. */
    ghost predicate Refuses(before: State, stream: seq<Byte>) {
      && |stream| >= 512
      && (archive.Whole() ==> Record(TarRules(w), before, stream).Err?)
    }

    /** The data and padding of the record whose header has been read. */
    method TakeData(size: nat, collect: bool, ghost stream: seq<Byte>) returns (r: Archived<seq<Byte>>)
      requires archive.Valid() && !archive.Overrun() && archive.delivered % 512 == 0
      requires |stream| >= 512 && Rest() == stream[512..]
      modifies archive, archive.inner
      ensures archive.Valid()
      ensures r.Ok? ==> !archive.Overrun() && archive.delivered % 512 == 0
      ensures r.Ok? ==> Complete(stream, size) && Rest() == stream[512 + size + Padding(size)..]
      ensures r.Ok? ==> r.value == if collect then stream[512..512 + size] else []
      ensures r.Err? ==> !archive.Whole() || size > MAX_MEMBER_SIZE || !Complete(stream, size)
    {
      ghost var from := archive.delivered;
      ghost var data := archive.inner.data;
      assert data[from..] == stream[512..];
      r := ReadTarRecord(archive, size, collect);
      var end := size + Padding(size);
      if from + end <= |data| {
        SameSlices(data, from, stream, 512, size, end);
        PaddingFills(size);
      }
    }

    /** GNU long names and links, local and global PAX headers. */
    method StoreMetadata(kind: Kind, data: seq<Byte>) returns (ok: bool)
      requires Valid() && IsMetadata(kind)
      modifies this, globalPax
      ensures ok <==> Absorb(w, old(State()), Metadata(kind, |data|), data).Ok?
      ensures ok ==> Valid() && State() == Absorb(w, old(State()), Metadata(kind, |data|), data).value
    {
      if kind.LongName? {
        if longName.Some? {
          return false;
        }
        longName := Some(data);
      } else if kind.LongLink? {
        if longLink.Some? {
          return false;
        }
        longLink := Some(data);
      } else {
        var overrides := PaxOverrides(data);
        if overrides.Err? {
          return false;
        }
        if kind.LocalPax? {
          if pendingPax.Some? {
            return false;
          }
          pendingPax := Some(data);
        } else {
          globalPax.Update(overrides.value);
        }
      }
      index := index + 1;
      ok := true;
    }

    /** The name of the next member and its size; what was pending for it is used up. */
    method ResolveMember(headerPath: seq<Byte>, size: nat) returns (raw: seq<Byte>, declared: nat)
      requires Valid()
      modifies this
      ensures raw == RawPath(old(State()), headerPath) && declared == DeclaredSize(old(State()), size)
      ensures Valid() && State() == old(State()).(longName := None, longLink := false, local := None)
    {
      var pax := NONE;
      if pendingPax.Some? {
        var parsed := PaxOverrides(pendingPax.value);
        pax := parsed.value;
      }
      var paxSize := if pax.size.Some? then pax.size.value else globalPax.size;
      declared := if paxSize.Some? then paxSize.value else size;
      var paxPath := if pax.path.Some? then pax.path.value else globalPax.path;
      raw := if longName.Some? then TrimTarNul(longName.value)
             else if paxPath.Some? then paxPath.value else headerPath;
      longName, longLink, pendingPax := None, None, None;
    }

    /** Type, size and uniqueness of a member with a valid name; name and size are booked on the way. */
    method CheckMember(kind: Kind, trailingSlash: bool, path: seq<Byte>, declared: nat, mode: nat)
      returns (r: Archived<Demand>)
      requires Valid()
      modifies this
      ensures r == RequireNamed(w, old(State()), kind, trailingSlash, path, declared, mode)
      ensures Valid()
      ensures r.Ok? ==> !r.value.Metadata? && r.value.path == path
      ensures r.Ok? ==> State() == old(State()).(names := old(names) + {path}, total := old(total) + DataSize(r.value))
    {
      if path in names {
        return Err(Malformed);
      }
      names := names + {path};
      if kind.Unsupported? {
        return Err(Malformed);
      }
      if trailingSlash && kind.File? {
        return Err(Malformed);
      }
      if declared > MAX_MEMBER_SIZE {
        return Err(Malformed);
      }
      if kind.Directory? {
        return if declared != 0 then Err(Malformed) else Ok(Folder(path));
      }
      if path == w.root {
        return Err(Malformed);
      }
      total := total + declared;
      if total > MAX_UNCOMPRESSED_SIZE {
        return Err(Malformed);
      }
      r := Ok(Regular(path, declared, mode));
    }

    /** The effect of a member whose data has been read. */
    method StoreMember(demand: Demand, data: seq<Byte>, ghost before: State, ghost all: seq<Byte>) returns (ok: bool)
      requires Valid() && !demand.Metadata? && State() == Entered(before, demand)
      requires demand.Regular? && demand.path == w.payload ==> data == all
      modifies this
      ensures ok <==> Absorb(w, before, demand, all).Ok?
      ensures ok ==> Valid() && State() == Absorb(w, before, demand, all).value
    {
      if demand.Folder? {
        if demand.path == w.root {
          rootSeen := true;
        }
      } else if demand.path == w.payload {
        if !Executable(demand.mode) || !w.accepts(data) {
          return false;
        }
        payload := Some(data);
      }
      index := index + 1;
      ok := true;
    }

    /** The turn for a metadata header within its size bound. */
    method TakeMetadata(kind: Kind, size: nat, ghost stream: seq<Byte>, ghost record: Archived<(State, nat)>)
        returns (ok: bool)
      requires Valid() && |stream| >= 512 && Rest() == stream[512..]
      requires IsMetadata(kind) && size <= MAX_TAR_METADATA_SIZE
      requires Outcome(record, w, State(), stream, Metadata(kind, size))
      modifies this, archive, archive.inner, globalPax
      ensures archive.Valid()
      ensures ok ==> Valid() && record.Ok? && record.value == (State(), 512 + size + Padding(size))
      ensures ok ==> |stream| >= record.value.1 && Rest() == stream[record.value.1..]
      ensures !ok && archive.Whole() ==> record.Err?
    {
      var data := TakeData(size, true, stream);
      if data.Err? {
        return false;
      }
      ok := StoreMetadata(kind, data.value);
    }

    /** The turn for a member's header. */
    method TakeMember(demand: Demand, ghost stream: seq<Byte>, ghost before: State,
        ghost record: Archived<(State, nat)>)
      returns (ok: bool)
      requires Valid() && |stream| >= 512 && Rest() == stream[512..]
      requires !demand.Metadata? && DataSize(demand) <= MAX_MEMBER_SIZE && State() == Entered(before, demand)
      requires Outcome(record, w, before, stream, demand)
      modifies this, archive, archive.inner
      ensures archive.Valid()
      ensures ok ==> Valid() && record.Ok? && record.value == (State(), 512 + DataSize(demand)
          + Padding(DataSize(demand)))
      ensures ok ==> |stream| >= record.value.1 && Rest() == stream[record.value.1..]
      ensures !ok && archive.Whole() ==> record.Err?
    {
      var size := DataSize(demand);
      var data := TakeData(size, demand.Regular? && demand.path == w.payload, stream);
      if data.Err? {
        return false;
      }
      ok := StoreMember(demand, data.value, before, stream[512..512 + size]);
    }

    /** Resolve and check a member. */
    method CheckHeader(block: Block, kind: Kind, size: nat) returns (r: Archived<Demand>)
      requires Valid() && kind == KindOf(block)
      modifies this
      ensures Valid() && r == MemberDemand(w, old(State()), block, size)
      ensures r.Ok? ==> !r.value.Metadata? && State() == Entered(old(State()), r.value)
    {
      var raw, declared := ResolveMember(HeaderPath(block), size);
      var path := ValidateMemberName(raw, w.root);
      if path.None? {
        return Err(Malformed);
      }
      r := CheckMember(kind, EndsWithSlash(raw), path.value, declared, Mode(block));
    }

    /** Everything between a nonzero header block and the next one. */
    method TakeRecord(block: Block, ghost stream: seq<Byte>) returns (ok: bool)
      requires Valid() && |stream| >= 512 && block == stream[..512] && Rest() == stream[512..]
      modifies this, archive, archive.inner, globalPax
      ensures archive.Valid()
      ensures ok ==> Took(old(State()), stream)
      ensures !ok ==> Refuses(old(State()), stream)
    {
      ghost var before := State();
      if index >= MAX_ARCHIVE_MEMBERS || !ChecksumMatches(block) {
        RefusedHeader(w, before, stream);
        return false;
      }
      var kind, size := KindOf(block), Size(block);
      if size.None? {
        RefusedHeader(w, before, stream);
        return false;
      }
      if IsMetadata(kind) {
        if size.value > MAX_TAR_METADATA_SIZE {
          RefusedHeader(w, before, stream);
          return false;
        }
        AcceptedHeader(w, before, stream, Metadata(kind, size.value));
        ok := TakeMetadata(kind, size.value, stream, Record(TarRules(w), before, stream));
        return;
      }
      MemberHeader(w, before, stream, size.value);
      var demand := CheckHeader(block, kind, size.value);
      if demand.Err? {
        return false;
      }
      ok := TakeMember(demand.value, stream, before, Record(TarRules(w), before, stream));
    }

    /** The next block, or what is missing of it. */
    method NextBlock() returns (r: Io<Block>)
      requires Valid()
      modifies archive, archive.inner
      ensures archive.Valid()
      ensures r.Ok? ==>
                && Valid() && |old(Rest())| >= 512 && r.value == old(Rest())[..512]
                && Rest() == old(Rest())[512..] && archive.delivered == old(archive.delivered) + 512
      ensures r.Err? && archive.Whole() ==> |old(Rest())| < 512
    {
      ghost var stream := Rest();
      var header := archive.ReadExact(512);
      if header.Err? {
        return Err(header.error);
      }
      assert stream[..512] == header.value && stream[512..] == Rest();
      r := Ok(header.value);
    }

    /** The first zero block: the walk ends here, with nothing pending and only zeros after it. */
    method Finish(block: Block, ghost stream: seq<Byte>) returns (ok: bool)
      requires Valid() && |stream| >= 512 && block == stream[..512] && stream[512..] == Rest() && AllZero(block)
      modifies archive, archive.inner
      ensures ok ==>
                pendingPax.None? && archive.Whole() && Walk(TarRules(w), State(), stream) == Ok(State())
      ensures !ok && archive.Whole() ==> Walk(TarRules(w), State(), stream).Err?
    {
      WalkCases(TarRules(w), State(), stream);
      if longName.Some? || longLink.Some? || pendingPax.Some? {
        return false;
      }
      ok := ReadTrailer(archive);
      assert stream == block + stream[512..];
    }

    /**
     The loop.  At its head the bytes consumed are exactly whole records, headers, data and padding,
     and inspecting the rest from the variables' state is inspecting everything from the start.
     */
    method Run() returns (ok: bool)
      requires Valid() && archive.delivered == 0
      modifies this, archive, archive.inner, globalPax
      ensures ok ==>
                && pendingPax.None? && archive.Whole()
                && Walk(TarRules(w), old(State()), archive.inner.data) == Ok(State())
      ensures !ok && archive.Whole() ==> Walk(TarRules(w), old(State()), archive.inner.data).Err?
    {
      ghost var data := archive.inner.data;
      ghost var walked := Walk(TarRules(w), State(), data);
      ghost var entries: seq<Entry> := [];
      assert Rest() == data;
      while true
        invariant Valid() && archive.delivered <= |data|
        invariant data[..archive.delivered] == Layout(entries)
        invariant Walk(TarRules(w), State(), Rest()) == walked
        decreases |data| - archive.delivered
      {
        ghost var stream, before, from := Rest(), State(), archive.delivered;
        WalkCases(TarRules(w), before, stream);
        var header := NextBlock();
        if header.Err? {
          return false;
        }
        if AllZero(header.value) {
          ok := Finish(header.value, stream);
          return;
        }
        ok := TakeRecord(header.value, stream);
        if !ok {
          return false;
        }
        NextRecord(TarRules(w), before, data, from, archive.delivered, entries);
        entries := entries + [EntryAt(TarRules(w), before, stream)];
      }
    }
  }

  lemma OneError(r: Archived<State>)
    ensures r.Err? ==> r == Err(Malformed)
  {
    if r.Err? {
      assert r.error == Malformed;
    }
  }

  /** Inspection of a decompressed stream, or of what is left of it when the compressed data is damaged. */
  method InspectTar(w: Wanted, stream: seq<Byte>, sound: bool) returns (r: Archived<seq<Byte>>)
    ensures r == Verdict(w, stream, sound)
  {
    var decoder := new Decoder(stream, sound);
    var archive := new DecompressedLimit(decoder, MAX_TAR_DECOMPRESSED_SIZE);
    var inspection := new TarInspection(w, archive);
    var ok := inspection.Run();
    assert archive.Whole() <==> sound && |stream| <= MAX_TAR_DECOMPRESSED_SIZE;
    if !ok {
      OneError(Walk(TarRules(w), START, stream));
      return Err(Malformed);
    }
    if !inspection.rootSeen || inspection.payload.None? {
      return Err(Malformed);
    }
    r := Ok(inspection.payload.value);
  }

  // ---- The limit is wide enough ----

  function DataBytes(entries: seq<Entry>): nat {
    if entries == [] then 0 else |entries[0].data| + DataBytes(entries[1..])
  }

  function MetadataBytes(entries: seq<Entry>): nat {
    if entries == [] then 0
    else (if IsMetadata(KindOf(entries[0].block)) then |entries[0].data| else 0) + MetadataBytes(entries[1..])
  }

  lemma {:induction false} LayoutLength(entries: seq<Entry>)
    ensures |Layout(entries)| <= 1023 * |entries| + DataBytes(entries)
  {
    if entries != [] {
      LayoutLength(entries[1..]);
    }
  }

  /** Data is either a member's or metadata. */
  lemma {:induction false} DataIsAccounted(w: Wanted, st: State, entries: seq<Entry>)
    requires Fold(TarRules(w), st, entries).Ok?
    ensures DataBytes(entries) == DataTotal(Members(w, st, entries)) + MetadataBytes(entries)
    decreases |entries|
  {
    if entries != [] {
      var e := entries[0];
      var next := EntryStep(TarRules(w), st, e).value;
      var rest := Members(w, next, entries[1..]);
      DataIsAccounted(w, next, entries[1..]);
      KindOfMember(w, st, e);
      var m := MemberOf(w, st, e);
      if m.Some? {
        assert ([m.value] + rest)[1..] == rest;
      } else {
        assert [] + rest == rest;
      }
    }
  }

  lemma KindOfMember(w: Wanted, st: State, e: Entry)
    requires EntryStep(TarRules(w), st, e).Ok?
    ensures MemberOf(w, st, e).None? <==> IsMetadata(KindOf(e.block))
    ensures MemberOf(w, st, e).Some? ==> MemberOf(w, st, e).value.data == e.data
  {
  }

  /**
   An archive that passes the inspection, with at most 28 MiB of metadata and end-marker zeros, never
   trips the limit on decompressed bytes.
   */
  lemma InspectedArchivesFit(w: Wanted, stream: seq<Byte>)
    requires Inspect(w, stream).Ok?
    requires MetadataBytes(Entries(TarRules(w), START, stream))
        + |TrailerOf(TarRules(w), START, stream)| <= 28 * 1024 * 1024
    ensures |stream| <= MAX_TAR_DECOMPRESSED_SIZE && Verdict(w, stream, true) == Inspect(w, stream)
  {
    InspectedArchive(w, stream);
    var entries := Entries(TarRules(w), START, stream);
    LayoutLength(entries);
    DataIsAccounted(w, START, entries);
  }
}
