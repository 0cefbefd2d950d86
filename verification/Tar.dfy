/**
 Inspection of a decompressed tar archive: what each header asks for in the state its predecessors
 left, what each record does, and what a successful inspection says about the members.
 */
module Tar {
  import opened Results
  import opened Bytes
  import opened MemberName
  import opened TarHeader
  import opened TarGrammar
  import opened Pax

  const MAX_MEMBER_SIZE: nat := 256 * 1024 * 1024
  const MAX_UNCOMPRESSED_SIZE: nat := 256 * 1024 * 1024
  const MAX_ARCHIVE_MEMBERS: nat := 4096
  const MAX_TAR_METADATA_SIZE: nat := 64 * 1024

  /** What the manifest expects; `accepts` stands for its size and digest check of the payload. */
  datatype Wanted = Wanted(root: seq<Byte>, payload: seq<Byte>, accepts: seq<Byte> -> bool)

  datatype State = State(
    index: nat,
    names: set<seq<Byte>>,
    total: nat,
    rootSeen: bool,
    payload: Option<seq<Byte>>,
    longName: Option<seq<Byte>>,
    longLink: bool,
    local: Option<Overrides>,
    globals: (Option<seq<Byte>>, Option<nat>))

  const START := State(0, {}, 0, false, None, None, false, None, (None, None))

  predicate MetadataPending(st: State) {
    st.longName.Some? || st.longLink || st.local.Some?
  }

  /** Everything decided about a header before its data is read. */
  datatype Demand =
    | Metadata(kind: Kind, size: nat)
    | Folder(path: seq<Byte>)
    | Regular(path: seq<Byte>, size: nat, mode: nat)

  function DataSize(demand: Demand): nat {
    match demand
    case Metadata(_, size) => size
    case Folder(_) => 0
    case Regular(_, size, _) => size
  }

  function TrimTarNul(s: seq<Byte>): seq<Byte> {
    if s != [] && s[|s| - 1] == 0 then s[..|s| - 1] else s
  }

  function LocalOverrides(st: State): Overrides {
    if st.local.Some? then st.local.value else NONE
  }

  /** Local PAX over global PAX over the header field; a local empty value cancels the global one. */
  function DeclaredSize(st: State, headerSize: nat): nat {
    var o := LocalOverrides(st);
    var size := if o.size.Some? then o.size.value else st.globals.1;
    if size.Some? then size.value else headerSize
  }

  /** Long name over local PAX over global PAX over the header field. */
  function RawPath(st: State, headerPath: seq<Byte>): seq<Byte> {
    var o := LocalOverrides(st);
    var pax := if o.path.Some? then o.path.value else st.globals.0;
    if st.longName.Some? then TrimTarNul(st.longName.value)
    else if pax.Some? then pax.value
    else headerPath
  }

  predicate IsMetadata(kind: Kind) {
    kind.LongName? || kind.LongLink? || kind.LocalPax? || kind.GlobalPax?
  }

  /** The checks on a member's header once its name has been validated. */
  function RequireNamed(w: Wanted, st: State, kind: Kind, trailingSlash: bool, path: seq<Byte>, declared: nat,
      mode: nat)
    : Archived<Demand>
  {
    if path in st.names || kind.Unsupported? || (trailingSlash && kind.File?) || declared > MAX_MEMBER_SIZE
    then Err(Malformed)
    else if kind.Directory? then if declared != 0 then Err(Malformed) else Ok(Folder(path))
    else if path == w.root || st.total + declared > MAX_UNCOMPRESSED_SIZE then Err(Malformed)
    else Ok(Regular(path, declared, mode))
  }

  /** The checks on a header in the state its predecessors left. */
  function Require(w: Wanted, st: State, block: Block): Archived<Demand> {
    var kind := KindOf(block);
    var size := Size(block);
    if size.None? then Err(Malformed)
    else if IsMetadata(kind) then
      if size.value > MAX_TAR_METADATA_SIZE then Err(Malformed) else Ok(Metadata(kind, size.value))
    else
      var raw := RawPath(st, HeaderPath(block));
      var path := ValidateMemberName(raw, w.root);
      if path.None? then Err(Malformed)
      else RequireNamed(w, st, kind, EndsWithSlash(raw), path.value, DeclaredSize(st, size.value), Mode(block))
  }

  function Named(st: State, path: seq<Byte>): State {
    st.(names := st.names + {path}, longName := None, longLink := false, local := None, index := st.index + 1)
  }

  /** The state after a record whose data has been read. */
  function Absorb(w: Wanted, st: State, demand: Demand, data: seq<Byte>): Archived<State> {
    match demand
    case Metadata(kind, _) =>
      var next := st.(index := st.index + 1);
      if kind.LongName? then if st.longName.Some? then Err(Malformed) else Ok(next.(longName := Some(data)))
      else if kind.LongLink? then if st.longLink then Err(Malformed) else Ok(next.(longLink := true))
      else
        var overrides :- Parse(data);
        if kind.LocalPax? then if st.local.Some? then Err(Malformed) else Ok(next.(local := Some(overrides)))
        else Ok(next.(globals := Updated(st.globals, overrides)))
    case Folder(path) =>
      Ok(Named(st, path).(rootSeen := st.rootSeen || path == w.root))
    case Regular(path, size, mode) =>
      var next := Named(st, path).(total := st.total + size);
      if path != w.payload then Ok(next)
      else if !Executable(mode) || !w.accepts(data) then Err(Malformed)
      else Ok(next.(payload := Some(data)))
  }

  /** How many data bytes follow a header, after every check that precedes reading them. */
  function Announced(w: Wanted, st: State, block: Block): Archived<nat> {
    if st.index >= MAX_ARCHIVE_MEMBERS || !ChecksumMatches(block) then Err(Malformed)
    else
      var demand :- Require(w, st, block);
      Ok(DataSize(demand))
  }

  function Consume(w: Wanted, st: State, block: Block, data: seq<Byte>): Archived<State> {
    var demand :- Require(w, st, block);
    Absorb(w, st, demand, data)
  }

  function TarRules(w: Wanted): Rules<State> {
    Rules((st, block) => Announced(w, st, block),
          (st, block, data) => Consume(w, st, block, data),
          st => MetadataPending(st))
  }

  /** Root directory and payload must both have been seen. */
  function Inspect(w: Wanted, stream: seq<Byte>): Archived<seq<Byte>> {
    var st :- Walk(TarRules(w), START, stream);
    if !st.rootSeen || st.payload.None? then Err(Malformed) else Ok(st.payload.value)
  }

  lemma DemandedBy(w: Wanted, st: State, block: Block, demand: Demand, data: seq<Byte>)
    requires Announced(w, st, block) == Ok(DataSize(demand)) && Require(w, st, block) == Ok(demand)
    ensures TarRules(w).demand(st, block) == Ok(DataSize(demand))
    ensures TarRules(w).absorb(st, block, data) == Absorb(w, st, demand, data)
  {
  }

  /** The checks on a member's header, its checksum and position being in order. */
  function MemberDemand(w: Wanted, st: State, block: Block, size: nat): Archived<Demand> {
    var raw := RawPath(st, HeaderPath(block));
    var path := ValidateMemberName(raw, w.root);
    if path.None? then Err(Malformed)
    else RequireNamed(w, st, KindOf(block), EndsWithSlash(raw), path.value, DeclaredSize(st, size), Mode(block))
  }

  lemma MemberDemanded(w: Wanted, st: State, block: Block, size: nat)
    requires st.index < MAX_ARCHIVE_MEMBERS && ChecksumMatches(block)
    requires Size(block) == Some(size) && !IsMetadata(KindOf(block))
    ensures Require(w, st, block) == MemberDemand(w, st, block, size)
    ensures Announced(w, st, block)
         == var demand := MemberDemand(w, st, block, size);
            if demand.Err? then Err(Malformed) else Ok(DataSize(demand.value))
    ensures var demand := MemberDemand(w, st, block, size); demand.Ok? ==> DataSize(demand.value) <= MAX_MEMBER_SIZE
  {
  }

  lemma HeadersAreNotZero(w: Wanted)
    ensures RejectsZeros(TarRules(w))
  {
    var r := TarRules(w);
    forall st: State, block: Block | r.demand(st, block).Ok? ensures !AllZero(block) {
      if AllZero(block) {
        ZeroBlockHasNoChecksum(block);
      }
    }
  }

  // ---- What acceptance means for the members ----

  datatype Member = Member(path: seq<Byte>, folder: bool, data: seq<Byte>)

  function MemberFor(demand: Demand, data: seq<Byte>): Option<Member> {
    match demand
    case Metadata(_, _) => None
    case Folder(path) => Some(Member(path, true, []))
    case Regular(path, _, _) => Some(Member(path, false, data))
  }

  /** The member a record adds, if it is not metadata. */
  function MemberOf(w: Wanted, st: State, e: Entry): Option<Member> {
    var demand := Require(w, st, e.block);
    if demand.Err? then None else MemberFor(demand.value, e.data)
  }

  /** The members an entry list resolves to, with their final names. */
  function Members(w: Wanted, st: State, entries: seq<Entry>): seq<Member>
    requires Fold(TarRules(w), st, entries).Ok?
    decreases |entries|
  {
    if entries == [] then []
    else
      var m := MemberOf(w, st, entries[0]);
      (if m.Some? then [m.value] else [])
      + Members(w, EntryStep(TarRules(w), st, entries[0]).value, entries[1..])
  }

  function DataTotal(members: seq<Member>): nat {
    if members == [] then 0 else |members[0].data| + DataTotal(members[1..])
  }

  ghost predicate Proper(w: Wanted, m: Member) {
    UnderRoot(m.path, w.root) && (m.folder || m.path != w.root)
  }

  /** What one record changes of the part of the state that the result depends on. */
  ghost predicate Adds(w: Wanted, st: State, next: State, m: Option<Member>) {
    && next.index == st.index + 1 <= MAX_ARCHIVE_MEMBERS
    && (match m
        case None =>
          next.names == st.names && next.total == st.total && next.payload == st.payload && next.rootSeen == st.rootSeen
        case Some(m) =>
          && Proper(w, m) && m.path !in st.names && next.names == st.names + {m.path}
          && next.total == st.total + |m.data| && (m.data == [] || next.total <= MAX_UNCOMPRESSED_SIZE)
          && next.payload == (if m.path == w.payload && !m.folder then Some(m.data) else st.payload)
          && (next.rootSeen <==> st.rootSeen || m == Member(w.root, true, [])))
  }

  /** What the header checks settle about a member. */
  ghost predicate Suitable(w: Wanted, st: State, demand: Demand) {
    match demand
    case Metadata(kind, _) => IsMetadata(kind)
    case Folder(path) => UnderRoot(path, w.root) && path !in st.names
    case Regular(path, size, _) =>
      UnderRoot(path, w.root) && path !in st.names && path != w.root && st.total + size <= MAX_UNCOMPRESSED_SIZE
  }

  lemma RequiredIsSuitable(w: Wanted, st: State, block: Block)
    requires Require(w, st, block).Ok?
    ensures Suitable(w, st, Require(w, st, block).value)
  {
    AcceptedUnderRoot(RawPath(st, HeaderPath(block)), w.root);
  }

  lemma AbsorbAdds(w: Wanted, st: State, demand: Demand, data: seq<Byte>)
    requires st.index < MAX_ARCHIVE_MEMBERS
    requires Suitable(w, st, demand) && |data| == DataSize(demand) && Absorb(w, st, demand, data).Ok?
    ensures Adds(w, st, Absorb(w, st, demand, data).value, MemberFor(demand, data))
  {
  }

  lemma StepAdds(w: Wanted, st: State, e: Entry)
    requires EntryStep(TarRules(w), st, e).Ok?
    ensures Adds(w, st, EntryStep(TarRules(w), st, e).value, MemberOf(w, st, e))
  {
    var demand := Require(w, st, e.block).value;
    RequiredIsSuitable(w, st, e.block);
    AbsorbAdds(w, st, demand, e.data);
  }

  ghost predicate DistinctFrom(names: set<seq<Byte>>, members: seq<Member>) {
    && (forall i :: 0 <= i < |members| ==> members[i].path !in names)
    && (forall i, j :: 0 <= i < j < |members| ==> members[i].path != members[j].path)
  }

  /** The data of a file at the payload path. */
  ghost predicate IsPayload(w: Wanted, members: seq<Member>, data: seq<Byte>) {
    Member(w.payload, false, data) in members
  }

  ghost predicate Sound(w: Wanted, st: State, members: seq<Member>, end: State) {
    && DistinctFrom(st.names, members)
    && (forall m <- members :: Proper(w, m))
    && end.total == st.total + DataTotal(members)
    && (end.total <= MAX_UNCOMPRESSED_SIZE || end.total == st.total)
    && (end.payload == st.payload || (end.payload.Some? && IsPayload(w, members, end.payload.value)))
    && (forall m <- members :: m.path == w.payload && !m.folder ==> end.payload == Some(m.data))
    && (end.rootSeen <==> st.rootSeen || Member(w.root, true, []) in members)
  }

  lemma {:induction false} FoldIsSound(w: Wanted, st: State, entries: seq<Entry>)
    requires Fold(TarRules(w), st, entries).Ok?
    ensures Sound(w, st, Members(w, st, entries), Fold(TarRules(w), st, entries).value)
    ensures Fold(TarRules(w), st, entries).value.index == st.index + |entries|
    ensures entries == [] || st.index + |entries| <= MAX_ARCHIVE_MEMBERS
    decreases |entries|
  {
    if entries != [] {
      var next := EntryStep(TarRules(w), st, entries[0]).value;
      StepAdds(w, st, entries[0]);
      FoldIsSound(w, next, entries[1..]);
      Prepend(w, st, next, MemberOf(w, st, entries[0]), Members(w, next, entries[1..]),
              Fold(TarRules(w), st, entries).value);
    }
  }

  lemma Prepend(w: Wanted, st: State, next: State, m: Option<Member>, rest: seq<Member>, end: State)
    requires Adds(w, st, next, m) && Sound(w, next, rest, end)
    ensures Sound(w, st, (if m.Some? then [m.value] else []) + rest, end)
  {
    if m.Some? {
      var members := [m.value] + rest;
      assert members[1..] == rest && members[0] == m.value;
      assert forall x :: x in members <==> x == m.value || x in rest;
    } else {
      assert [] + rest == rest;
    }
  }

  /**
   An accepted archive: exactly its records and zeros; at most 4096 records; members with distinct
   names, all under the root, of at most 256 MiB together; and a result that is the data of the
   unique member at the manifest's path.
   */
  lemma InspectedArchive(w: Wanted, stream: seq<Byte>)
    requires Inspect(w, stream).Ok?
    ensures var entries := Entries(TarRules(w), START, stream);
            var zeros := TrailerOf(TarRules(w), START, stream);
            && Fold(TarRules(w), START, entries).Ok?
            && stream == Layout(entries) + zeros && Trailer(zeros)
            && |entries| <= MAX_ARCHIVE_MEMBERS
            && AcceptedMembers(w, Members(w, START, entries), Inspect(w, stream).value)
  {
    WalkIsLayout(TarRules(w), START, stream);
    var entries := Entries(TarRules(w), START, stream);
    FoldIsSound(w, START, entries);
    UniquePayload(w, Members(w, START, entries), Inspect(w, stream).value);
  }

  ghost predicate AcceptedMembers(w: Wanted, members: seq<Member>, payload: seq<Byte>) {
    && (forall m <- members :: Proper(w, m))
    && (forall i, j :: 0 <= i < j < |members| ==> members[i].path != members[j].path)
    && DataTotal(members) <= MAX_UNCOMPRESSED_SIZE
    && Member(w.root, true, []) in members
    && (exists i :: 0 <= i < |members| && members[i] == Member(w.payload, false, payload)
                    && forall j :: 0 <= j < |members| && members[j].path == w.payload ==> j == i)
  }

  lemma UniquePayload(w: Wanted, members: seq<Member>, payload: seq<Byte>)
    requires DistinctFrom({}, members) && IsPayload(w, members, payload)
    ensures exists i :: 0 <= i < |members| && members[i] == Member(w.payload, false, payload)
                        && forall j :: 0 <= j < |members| && members[j].path == w.payload ==> j == i
  {
    var i :| 0 <= i < |members| && members[i] == Member(w.payload, false, payload);
    assert forall j :: 0 <= j < |members| && members[j].path == w.payload ==> j == i;
  }
}
