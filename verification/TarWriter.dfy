/**
 A writer for the archives the tar loop reads: ustar headers, each preceded by any list of global PAX
 headers, local PAX headers, GNU long names and GNU long links in which only global headers repeat.
 Whatever it writes within the limits is read back as the same members.  The proof is in two layers:
 single records, then archives for any reader and writer that agree on single records.
 */
module TarWriter {
  import opened Results
  import opened Bytes
  import opened MemberName
  import opened TarHeader
  import opened TarGrammar
  import opened Pax
  import opened Tar

  const LONG_NAME: Byte := 76
  const LONG_LINK: Byte := 75
  const LOCAL_PAX: Byte := 120
  const GLOBAL_PAX: Byte := 103
  const FOLDER: Byte := 53
  const FILE: Byte := 48

  /** A metadata record.  GNU long names are written with their NUL; nothing reads the target of a link. */
  datatype Meta =
    | GlobalHeader(settings: seq<Setting>)
    | LocalHeader(settings: seq<Setting>)
    | LongNameRecord(name: seq<Byte>)
    | LongLinkRecord(target: seq<Byte>)

  /** One member and the metadata written before it. */
  datatype Item = Item(metadata: seq<Meta>, fields: Fields, data: seq<Byte>)

  // ---- Single records ----

  datatype Writer = Writer(metadata: (Byte, seq<Byte>) -> Entry, member: (Fields, seq<Byte>) -> Entry)

  datatype Reader = Reader(step: (State, Entry) -> Archived<State>, member: (State, Entry) -> Option<Member>)

  /** A header for fields that fit; there is none for others. */
  function WriteEntry(f: Fields, data: seq<Byte>): Entry {
    Entry(if Writable(f) then Write(f) else Zeros(512), data)
  }

  function Ustar(): Writer {
    Writer((flag: Byte, data: seq<Byte>) => WriteEntry(Fields([], [], 0, |data|, flag), data),
           (fields: Fields, data: seq<Byte>) => WriteEntry(fields, data))
  }

  function Inspector(w: Wanted): Reader {
    Reader((st, e) => EntryStep(TarRules(w), st, e), (st, e) => MemberOf(w, st, e))
  }

  predicate MetadataFlag(flag: Byte, kind: Kind) {
    || (flag == LONG_NAME && kind == LongName)
    || (flag == LONG_LINK && kind == LongLink)
    || (flag == LOCAL_PAX && kind == LocalPax)
    || (flag == GLOBAL_PAX && kind == GlobalPax)
  }

  function MemberKind(flag: Byte): Kind {
    if flag == FOLDER then Directory else if flag == FILE then File else Unsupported
  }

  /** What the reader demands of a member whose header carries these fields. */
  function FieldsDemand(w: Wanted, st: State, f: Fields): Archived<Demand> {
    var raw := RawPath(st, PathOf(f));
    var path := ValidateMemberName(raw, w.root);
    if path.None? then Err(Malformed)
    else RequireNamed(w, st, MemberKind(f.typeflag), EndsWithSlash(raw), path.value, DeclaredSize(st, f.size), f.mode)
  }

  ghost predicate AgreeOnMetadata(w: Wanted, r: Reader, wr: Writer) {
    forall st: State, flag: Byte, kind: Kind, data: seq<Byte> {:trigger r.step(st, wr.metadata(flag, data)),
        MetadataFlag(flag, kind)} ::
      st.index < MAX_ARCHIVE_MEMBERS && MetadataFlag(flag, kind) && |data| <= MAX_TAR_METADATA_SIZE
      ==> && r.step(st, wr.metadata(flag, data)) == Absorb(w, st, Metadata(kind, |data|), data)
          && r.member(st, wr.metadata(flag, data)) == None
  }

  ghost predicate AgreeOnMembers(w: Wanted, r: Reader, wr: Writer) {
    forall st: State, f: Fields, data: seq<Byte> {:trigger r.step(st, wr.member(f, data))} ::
      st.index < MAX_ARCHIVE_MEMBERS && Writable(f) && f.typeflag in {FOLDER, FILE}
      && FieldsDemand(w, st, f).Ok? && DataSize(FieldsDemand(w, st, f).value) == |data|
      ==> && r.step(st, wr.member(f, data)) == Absorb(w, st, FieldsDemand(w, st, f).value, data)
          && r.member(st, wr.member(f, data)) == MemberFor(FieldsDemand(w, st, f).value, data)
  }

  lemma EightToTheEleventh()
    ensures Pow8(11) == 0x2_0000_0000 && Pow8(7) == 0x20_0000
  {
    assert Pow8(7) == 8 * 8 * 8 * Pow8(4);
    assert Pow8(4) == 8 * 8 * 8 * 8 * Pow8(0);
    assert Pow8(11) == 8 * 8 * 8 * 8 * Pow8(7);
  }

  lemma StepOfDemand(w: Wanted, st: State, e: Entry, demand: Demand)
    requires Announced(w, st, e.block) == Ok(DataSize(demand)) && Require(w, st, e.block) == Ok(demand)
    requires DataSize(demand) == |e.data|
    ensures EntryStep(TarRules(w), st, e) == Absorb(w, st, demand, e.data)
    ensures MemberOf(w, st, e) == MemberFor(demand, e.data)
  {
    DemandedBy(w, st, e.block, demand, e.data);
  }

  lemma MetadataRecord(w: Wanted, st: State, flag: Byte, kind: Kind, data: seq<Byte>)
    requires st.index < MAX_ARCHIVE_MEMBERS && MetadataFlag(flag, kind) && |data| <= MAX_TAR_METADATA_SIZE
    ensures var e := WriteEntry(Fields([], [], 0, |data|, flag), data);
            && EntryStep(TarRules(w), st, e) == Absorb(w, st, Metadata(kind, |data|), data)
            && MemberOf(w, st, e) == None
  {
    var fields := Fields([], [], 0, |data|, flag);
    MetadataHeader(fields, kind);
    MetadataStep(w, st, WriteEntry(fields, data), kind);
  }

  lemma MetadataHeader(f: Fields, kind: Kind)
    requires f.prefix == [] && f.name == [] && f.mode == 0 && f.size <= MAX_TAR_METADATA_SIZE
    requires MetadataFlag(f.typeflag, kind)
    ensures Writable(f)
    ensures ChecksumMatches(Write(f)) && Size(Write(f)) == Some(f.size) && KindOf(Write(f)) == kind
  {
    EightToTheEleventh();
    WriteChecksum(f);
    WriteNumbers(f);
    WriteNames(f);
    KindOfFlag(Write(f), f.typeflag);
  }

  lemma MetadataStep(w: Wanted, st: State, e: Entry, kind: Kind)
    requires st.index < MAX_ARCHIVE_MEMBERS && |e.data| <= MAX_TAR_METADATA_SIZE && IsMetadata(kind)
    requires ChecksumMatches(e.block) && Size(e.block) == Some(|e.data|) && KindOf(e.block) == kind
    ensures EntryStep(TarRules(w), st, e) == Absorb(w, st, Metadata(kind, |e.data|), e.data)
    ensures MemberOf(w, st, e) == None
  {
    StepOfDemand(w, st, e, Metadata(kind, |e.data|));
  }

  lemma HeaderOfFields(f: Fields)
    requires Writable(f) && f.typeflag in {FOLDER, FILE}
    ensures ChecksumMatches(Write(f)) && Size(Write(f)) == Some(f.size) && Mode(Write(f)) == f.mode
    ensures HeaderPath(Write(f)) == PathOf(f) && KindOf(Write(f)) == MemberKind(f.typeflag)
  {
    WriteChecksum(f);
    WriteNumbers(f);
    WriteNames(f);
    KindOfFlag(Write(f), f.typeflag);
  }

  lemma KindOfFlag(block: Block, flag: Byte)
    requires block[156] == flag
    ensures flag in {FOLDER, FILE} ==> KindOf(block) == MemberKind(flag)
    ensures flag == LONG_NAME ==> KindOf(block) == LongName
    ensures flag == LONG_LINK ==> KindOf(block) == LongLink
    ensures flag == LOCAL_PAX ==> KindOf(block) == LocalPax
    ensures flag == GLOBAL_PAX ==> KindOf(block) == GlobalPax
  {
  }

  lemma DemandOfFields(w: Wanted, st: State, block: Block, f: Fields)
    requires st.index < MAX_ARCHIVE_MEMBERS && ChecksumMatches(block)
    requires Size(block) == Some(f.size) && Mode(block) == f.mode && HeaderPath(block) == PathOf(f)
    requires KindOf(block) == MemberKind(f.typeflag)
    ensures Require(w, st, block) == FieldsDemand(w, st, f)
    ensures var demand := FieldsDemand(w, st, f);
            Announced(w, st, block) == if demand.Err? then Err(Malformed) else Ok(DataSize(demand.value))
  {
    MemberDemanded(w, st, block, f.size);
    assert MemberDemand(w, st, block, f.size) == FieldsDemand(w, st, f);
  }

  lemma MemberRecord(w: Wanted, st: State, f: Fields, data: seq<Byte>)
    requires st.index < MAX_ARCHIVE_MEMBERS && Writable(f) && f.typeflag in {FOLDER, FILE}
    requires FieldsDemand(w, st, f).Ok? && DataSize(FieldsDemand(w, st, f).value) == |data|
    ensures var e := WriteEntry(f, data);
            && EntryStep(TarRules(w), st, e) == Absorb(w, st, FieldsDemand(w, st, f).value, data)
            && MemberOf(w, st, e) == MemberFor(FieldsDemand(w, st, f).value, data)
  {
    var e := WriteEntry(f, data);
    HeaderOfFields(f);
    DemandOfFields(w, st, e.block, f);
    StepOfDemand(w, st, e, FieldsDemand(w, st, f).value);
  }

  lemma MetadataAgrees(w: Wanted)
    ensures AgreeOnMetadata(w, Inspector(w), Ustar())
  {
    var r, wr := Inspector(w), Ustar();
    forall st: State, flag: Byte, kind: Kind, data: seq<Byte> {:trigger r.step(st, wr.metadata(flag, data)),
        MetadataFlag(flag, kind)}
      | st.index < MAX_ARCHIVE_MEMBERS && MetadataFlag(flag, kind) && |data| <= MAX_TAR_METADATA_SIZE
      ensures && r.step(st, wr.metadata(flag, data)) == Absorb(w, st, Metadata(kind, |data|), data)
              && r.member(st, wr.metadata(flag, data)) == None
    {
      MetadataRecord(w, st, flag, kind, data);
    }
  }

  lemma MembersAgree(w: Wanted)
    ensures AgreeOnMembers(w, Inspector(w), Ustar())
  {
    var r, wr := Inspector(w), Ustar();
    forall st: State, f: Fields, data: seq<Byte> {:trigger r.step(st, wr.member(f, data))}
      | st.index < MAX_ARCHIVE_MEMBERS && Writable(f) && f.typeflag in {FOLDER, FILE}
        && FieldsDemand(w, st, f).Ok? && DataSize(FieldsDemand(w, st, f).value) == |data|
      ensures && r.step(st, wr.member(f, data)) == Absorb(w, st, FieldsDemand(w, st, f).value, data)
              && r.member(st, wr.member(f, data)) == MemberFor(FieldsDemand(w, st, f).value, data)
    {
      MemberRecord(w, st, f, data);
    }
  }

  // ---- What an item means ----

  /** What the metadata read so far asks for: the next member's own settings, and every global one. */
  datatype Front = Front(
    longName: Option<seq<Byte>>, longLink: bool, locals: Option<seq<Setting>>, globals: seq<Setting>)

  function Nothing(globals: seq<Setting>): Front {
    Front(None, false, None, globals)
  }

  /** One more record; only global headers may be repeated before one member. */
  function Lead(f: Front, m: Meta): Option<Front> {
    match m
    case GlobalHeader(settings) => Some(f.(globals := f.globals + settings))
    case LocalHeader(settings) => if f.locals.Some? then None else Some(f.(locals := Some(settings)))
    case LongNameRecord(name) => if f.longName.Some? then None else Some(f.(longName := Some(name)))
    case LongLinkRecord(_) => if f.longLink then None else Some(f.(longLink := true))
  }

  function LeadAll(f: Front, metadata: seq<Meta>): Option<Front>
    decreases |metadata|
  {
    if metadata == [] then Some(f)
    else
      var next := Lead(f, metadata[0]);
      if next.None? then None else LeadAll(next.value, metadata[1..])
  }

  function Settings(settings: Option<seq<Setting>>): seq<Setting> {
    if settings.Some? then settings.value else []
  }

  /** Local over global over the header; an empty value means the header again. */
  function Choose(local: Option<seq<Byte>>, global: Option<seq<Byte>>): Option<seq<Byte>> {
    var chosen := if local.Some? then local else global;
    if chosen == Some([]) then None else chosen
  }

  /** The name of an item's member, in front of which `f` has been read. */
  function FinalName(item: Item, f: Front): seq<Byte> {
    var pax := Choose(Last(Settings(f.locals), PATH_KEY), Last(f.globals, PATH_KEY));
    if f.longName.Some? then f.longName.value
    else if pax.Some? then pax.value
    else PathOf(item.fields)
  }

  function FinalSize(item: Item, f: Front): Option<nat> {
    var pax := Choose(Last(Settings(f.locals), SIZE_KEY), Last(f.globals, SIZE_KEY));
    if pax.Some? then ParseDecimal(pax.value) else Some(item.fields.size)
  }

  function MemberFrom(item: Item, f: Front): Member {
    Member(WithoutTrailingSlash(FinalName(item, f)), item.fields.typeflag == FOLDER, item.data)
  }

  /** The members a list of items stands for, as far as its metadata is in order. */
  function Expected(items: seq<Item>, globals: seq<Setting>): seq<Member> {
    if items == [] then []
    else
      var f := LeadAll(Nothing(globals), items[0].metadata);
      if f.None? then [] else [MemberFrom(items[0], f.value)] + Expected(items[1..], f.value.globals)
  }

  predicate SettingsFit(settings: seq<Setting>) {
    AllEncodable(settings) && |EncodeAll(settings)| <= MAX_TAR_METADATA_SIZE
  }

  predicate MetaFits(m: Meta) {
    match m
    case GlobalHeader(settings) => SettingsFit(settings)
    case LocalHeader(settings) => SettingsFit(settings)
    case LongNameRecord(name) => |name| < MAX_TAR_METADATA_SIZE
    case LongLinkRecord(target) => |target| < MAX_TAR_METADATA_SIZE
  }

  predicate MetadataFits(metadata: seq<Meta>) {
    forall m <- metadata :: MetaFits(m)
  }

  /** What one item has to meet by itself, after the metadata `f`. */
  predicate ItemFits(w: Wanted, item: Item, f: Front) {
    var name := FinalName(item, f);
    var path := WithoutTrailingSlash(name);
    && MetadataFits(item.metadata) && Writable(item.fields) && item.fields.typeflag in {FOLDER, FILE}
    && ValidateMemberName(name, w.root).Some?
    && FinalSize(item, f) == Some(|item.data|)
    && (item.fields.typeflag == FOLDER ==> item.data == [])
    && (item.fields.typeflag == FILE ==>
          && !EndsWithSlash(name) && path != w.root && |item.data| <= MAX_MEMBER_SIZE
          && (path == w.payload ==> Executable(item.fields.mode) && w.accepts(item.data)))
  }

  predicate ItemsFit(w: Wanted, items: seq<Item>, globals: seq<Setting>) {
    items == []
    || (var f := LeadAll(Nothing(globals), items[0].metadata);
        f.Some? && ItemFits(w, items[0], f.value) && ItemsFit(w, items[1..], f.value.globals))
  }

  function MetaFlag(m: Meta): Byte {
    match m
    case GlobalHeader(_) => GLOBAL_PAX
    case LocalHeader(_) => LOCAL_PAX
    case LongNameRecord(_) => LONG_NAME
    case LongLinkRecord(_) => LONG_LINK
  }

  function MetaKind(m: Meta): Kind {
    match m
    case GlobalHeader(_) => GlobalPax
    case LocalHeader(_) => LocalPax
    case LongNameRecord(_) => LongName
    case LongLinkRecord(_) => LongLink
  }

  function MetaData(m: Meta): seq<Byte> {
    match m
    case GlobalHeader(settings) => EncodeAll(settings)
    case LocalHeader(settings) => EncodeAll(settings)
    case LongNameRecord(name) => name + [0]
    case LongLinkRecord(target) => target + [0]
  }

  function MetaEntry(wr: Writer, m: Meta): Entry {
    wr.metadata(MetaFlag(m), MetaData(m))
  }

  function MetadataOf(wr: Writer, metadata: seq<Meta>): (entries: seq<Entry>)
    ensures |entries| == |metadata|
  {
    if metadata == [] then [] else [MetaEntry(wr, metadata[0])] + MetadataOf(wr, metadata[1..])
  }

  function EncodeItem(wr: Writer, item: Item): seq<Entry> {
    MetadataOf(wr, item.metadata) + [wr.member(item.fields, item.data)]
  }

  function EncodeItems(wr: Writer, items: seq<Item>): seq<Entry> {
    if items == [] then [] else EncodeItem(wr, items[0]) + EncodeItems(wr, items[1..])
  }

  // ---- Archives ----

  function ReadAll(r: Reader, st: State, entries: seq<Entry>): Archived<State>
    decreases |entries|
  {
    if entries == [] then Ok(st)
    else
      var next :- r.step(st, entries[0]);
      ReadAll(r, next, entries[1..])
  }

  function MembersRead(r: Reader, st: State, entries: seq<Entry>): seq<Member>
    requires ReadAll(r, st, entries).Ok?
    decreases |entries|
  {
    if entries == [] then []
    else
      var m := r.member(st, entries[0]);
      (if m.Some? then [m.value] else []) + MembersRead(r, r.step(st, entries[0]).value, entries[1..])
  }

  /** Reading `entries` from `st` ends in `end` and yields `members`. */
  ghost predicate Reads(r: Reader, st: State, entries: seq<Entry>, end: State, members: seq<Member>) {
    ReadAll(r, st, entries) == Ok(end) && MembersRead(r, st, entries) == members
  }

  lemma {:induction false} ReadsInTurn(r: Reader, st: State, a: seq<Entry>, mid: State, b: seq<Entry>, end: State,
                                       am: seq<Member>, bm: seq<Member>)
    requires Reads(r, st, a, mid, am) && Reads(r, mid, b, end, bm)
    ensures Reads(r, st, a + b, end, am + bm)
    decreases |a|
  {
    if a == [] {
      assert a + b == b && am + bm == bm;
    } else {
      var next := r.step(st, a[0]).value;
      var rest := MembersRead(r, next, a[1..]);
      ReadsInTurn(r, next, a[1..], mid, b, end, rest, bm);
      assert (a + b)[1..] == a[1..] + b && (a + b)[0] == a[0];
      assert am + bm == (if r.member(st, a[0]).Some? then [r.member(st, a[0]).value] else []) + (rest + bm);
    }
  }

  lemma ReadsOne(r: Reader, st: State, e: Entry, end: State)
    requires r.step(st, e) == Ok(end)
    ensures Reads(r, st, [e], end, if r.member(st, e).Some? then [r.member(st, e).value] else [])
  {
    assert [e][1..] == [];
  }

  /** The global overrides in force after these settings, whether one header set them or many. */
  function GlobalsOf(settings: seq<Setting>): (Option<seq<Byte>>, Option<nat>) {
    Updated((None, None), LastWins(settings))
  }

  lemma GlobalsCompose(first: seq<Setting>, later: seq<Setting>)
    ensures GlobalsOf(first + later) == Updated(GlobalsOf(first), LastWins(later))
  {
    LastConcat(first, later, PATH_KEY);
    LastConcat(first, later, SIZE_KEY);
  }

  ghost predicate Between(st: State, globals: seq<Setting>) {
    !MetadataPending(st) && st.globals == GlobalsOf(globals)
  }

  /** A metadata record is read as what it means in that state. */
  lemma OneMetadata(w: Wanted, r: Reader, wr: Writer, st: State, flag: Byte, kind: Kind, data: seq<Byte>, next: State)
    requires AgreeOnMetadata(w, r, wr) && st.index < MAX_ARCHIVE_MEMBERS && MetadataFlag(flag, kind)
    requires |data| <= MAX_TAR_METADATA_SIZE && Absorb(w, st, Metadata(kind, |data|), data) == Ok(next)
    ensures Reads(r, st, [wr.metadata(flag, data)], next, [])
  {
    var e := wr.metadata(flag, data);
    assert r.step(st, e) == Ok(next) && r.member(st, e) == None;
    ReadsOne(r, st, e, next);
  }

  /** A PAX header in any state, by the overrides it parses to. */
  function Overridden(st: State, kind: Kind, overrides: Overrides): Archived<State> {
    var next := st.(index := st.index + 1);
    if kind.GlobalPax? then Ok(next.(globals := Updated(st.globals, overrides)))
    else if st.local.Some? then Err(Malformed)
    else Ok(next.(local := Some(overrides)))
  }

  lemma AbsorbParsed(w: Wanted, st: State, kind: Kind, data: seq<Byte>, size: nat, overrides: Overrides)
    requires Parse(data) == Ok(overrides) && (kind.GlobalPax? || kind.LocalPax?)
    ensures Absorb(w, st, Metadata(kind, size), data) == Overridden(st, kind, overrides)
  {
  }

  lemma SettingsAbsorbed(w: Wanted, st: State, kind: Kind, settings: seq<Setting>, size: nat)
    requires AllEncodable(settings) && (kind.GlobalPax? || kind.LocalPax?)
    ensures Absorb(w, st, Metadata(kind, size), EncodeAll(settings)) == Overridden(st, kind, LastWins(settings))
  {
    LastSettingWins(settings);
    AbsorbParsed(w, st, kind, EncodeAll(settings), size, LastWins(settings));
  }

  /** The state in which what follows the metadata `f` is read. */
  function Ready(st: State, f: Front, records: nat): State {
    st.(index := st.index + records,
        globals := GlobalsOf(f.globals),
        longName := if f.longName.Some? then Some(f.longName.value + [0]) else None,
        longLink := f.longLink,
        local := if f.locals.Some? then Some(LastWins(f.locals.value)) else None)
  }

  /** What a record does in the state that `f` has left: it adds to `f`, or it is refused. */
  function Added(st: State, f: Front, records: nat, m: Meta): Archived<State> {
    if Lead(f, m).Some? then Ok(Ready(st, Lead(f, m).value, records + 1)) else Err(Malformed)
  }

  lemma OverriddenIsAdded(st: State, f: Front, records: nat, settings: seq<Setting>)
    ensures Overridden(Ready(st, f, records), GlobalPax, LastWins(settings))
         == Added(st, f, records, GlobalHeader(settings))
    ensures Overridden(Ready(st, f, records), LocalPax, LastWins(settings))
         == Added(st, f, records, LocalHeader(settings))
  {
    GlobalsCompose(f.globals, settings);
  }

  lemma MetaAbsorbed(w: Wanted, st: State, f: Front, records: nat, m: Meta)
    requires MetaFits(m)
    ensures Absorb(w, Ready(st, f, records), Metadata(MetaKind(m), |MetaData(m)|), MetaData(m))
         == Added(st, f, records, m)
  {
    if m.GlobalHeader? || m.LocalHeader? {
      OverriddenIsAdded(st, f, records, m.settings);
      SettingsAbsorbed(w, Ready(st, f, records), MetaKind(m), m.settings, |MetaData(m)|);
    }
  }

  /** One record is read as what it adds to the metadata before it. */
  lemma MetaRead(w: Wanted, r: Reader, wr: Writer, st: State, f: Front, records: nat, m: Meta)
    requires AgreeOnMetadata(w, r, wr) && st.index + records < MAX_ARCHIVE_MEMBERS && MetaFits(m)
    requires Lead(f, m).Some?
    ensures Reads(r, Ready(st, f, records), [MetaEntry(wr, m)], Ready(st, Lead(f, m).value, records + 1), [])
  {
    MetaAbsorbed(w, st, f, records, m);
    OneMetadata(w, r, wr, Ready(st, f, records), MetaFlag(m), MetaKind(m), MetaData(m),
                Ready(st, Lead(f, m).value, records + 1));
  }

  /** A record that repeats what only one record may say is refused. */
  lemma RepeatedMetaRefused(w: Wanted, r: Reader, wr: Writer, st: State, f: Front, records: nat, m: Meta)
    requires AgreeOnMetadata(w, r, wr) && st.index + records < MAX_ARCHIVE_MEMBERS && MetaFits(m)
    requires Lead(f, m).None?
    ensures r.step(Ready(st, f, records), MetaEntry(wr, m)).Err?
  {
    MetaAbsorbed(w, st, f, records, m);
    StepIsAbsorb(w, r, wr, Ready(st, f, records), MetaFlag(m), MetaKind(m), MetaData(m));
  }

  lemma StepIsAbsorb(w: Wanted, r: Reader, wr: Writer, st: State, flag: Byte, kind: Kind, data: seq<Byte>)
    requires AgreeOnMetadata(w, r, wr) && st.index < MAX_ARCHIVE_MEMBERS && MetadataFlag(flag, kind)
    requires |data| <= MAX_TAR_METADATA_SIZE
    ensures r.step(st, wr.metadata(flag, data)) == Absorb(w, st, Metadata(kind, |data|), data)
  {
  }

  lemma FitsOneByOne(metadata: seq<Meta>)
    requires MetadataFits(metadata) && metadata != []
    ensures MetaFits(metadata[0]) && MetadataFits(metadata[1..])
  {
    assert metadata[0] in metadata;
  }

  /** Any list of metadata that repeats nothing but global headers is read in the order it is written. */
  lemma {:induction false} MetadataRead(w: Wanted, r: Reader, wr: Writer, st: State, f: Front, records: nat,
                                        metadata: seq<Meta>)
    requires AgreeOnMetadata(w, r, wr) && st.index + records + |metadata| <= MAX_ARCHIVE_MEMBERS
    requires MetadataFits(metadata) && LeadAll(f, metadata).Some?
    ensures Reads(r, Ready(st, f, records), MetadataOf(wr, metadata),
                  Ready(st, LeadAll(f, metadata).value, records + |metadata|), [])
    decreases |metadata|
  {
    if metadata != [] {
      var m, rest := metadata[0], metadata[1..];
      var next := Lead(f, m).value;
      FitsOneByOne(metadata);
      MetaRead(w, r, wr, st, f, records, m);
      MetadataRead(w, r, wr, st, next, records + 1, rest);
      var end := Ready(st, LeadAll(next, rest).value, records + 1 + |rest|);
      ReadsInTurn(r, Ready(st, f, records), [MetaEntry(wr, m)], Ready(st, next, records + 1), MetadataOf(wr, rest),
          end, [], []);
    }
  }

  /** And no other list is: the order of metadata never matters, and only global headers may repeat. */
  lemma {:induction false} MetadataReadExactly(w: Wanted, r: Reader, wr: Writer, st: State, f: Front, records: nat,
                                               metadata: seq<Meta>)
    requires AgreeOnMetadata(w, r, wr) && st.index + records + |metadata| <= MAX_ARCHIVE_MEMBERS
    requires MetadataFits(metadata)
    ensures ReadAll(r, Ready(st, f, records), MetadataOf(wr, metadata)).Ok? <==> LeadAll(f, metadata).Some?
    decreases |metadata|
  {
    if metadata != [] {
      var m, rest := metadata[0], metadata[1..];
      FitsOneByOne(metadata);
      assert MetadataOf(wr, metadata)[0] == MetaEntry(wr, m) && MetadataOf(wr, metadata)[1..] == MetadataOf(wr, rest);
      if Lead(f, m).None? {
        RepeatedMetaRefused(w, r, wr, st, f, records, m);
      } else {
        MetaRead(w, r, wr, st, f, records, m);
        StepOfOne(r, Ready(st, f, records), MetaEntry(wr, m), Ready(st, Lead(f, m).value, records + 1));
        MetadataReadExactly(w, r, wr, st, Lead(f, m).value, records + 1, rest);
      }
    }
  }

  lemma StepOfOne(r: Reader, st: State, e: Entry, end: State)
    requires Reads(r, st, [e], end, [])
    ensures r.step(st, e) == Ok(end)
  {
    assert [e][1..] == [];
    var next := r.step(st, e);
    assert next.Ok? ==> ReadAll(r, next.value, []) == next;
  }

  /** Long name over local PAX over global PAX over the header. */
  lemma ReadyResolves(st: State, item: Item, f: Front, records: nat)
    requires FinalSize(item, f).Some?
    ensures RawPath(Ready(st, f, records), PathOf(item.fields)) == FinalName(item, f)
    ensures DeclaredSize(Ready(st, f, records), item.fields.size) == FinalSize(item, f).value
  {
    if f.longName.Some? {
      assert TrimTarNul(f.longName.value + [0]) == f.longName.value;
    }
  }

  /** Between items again, with the member booked. */
  ghost predicate Booked(st: State, m: Member, records: nat, globals: seq<Setting>, end: State) {
    && Between(end, globals)
    && end.index == st.index + records
    && end.names == st.names + {m.path}
    && end.total == st.total + |m.data|
  }

  /** What is demanded of an item's member. */
  function DemandFrom(item: Item, f: Front): Demand {
    var path := WithoutTrailingSlash(FinalName(item, f));
    if item.fields.typeflag == FOLDER then Folder(path) else Regular(path, |item.data|, item.fields.mode)
  }

  lemma ReadyDemand(w: Wanted, st: State, item: Item, f: Front, records: nat)
    requires ItemFits(w, item, f) && st.index + records < MAX_ARCHIVE_MEMBERS
    requires MemberFrom(item, f).path !in st.names && st.total + |item.data| <= MAX_UNCOMPRESSED_SIZE
    ensures FieldsDemand(w, Ready(st, f, records), item.fields) == Ok(DemandFrom(item, f))
  {
    ReadyResolves(st, item, f, records);
  }

  lemma ReadyBooks(w: Wanted, st: State, item: Item, f: Front, records: nat)
    requires ItemFits(w, item, f)
    ensures var absorbed := Absorb(w, Ready(st, f, records), DemandFrom(item, f), item.data);
            absorbed.Ok? && Booked(st, MemberFrom(item, f), records + 1, f.globals, absorbed.value)
    ensures MemberFor(DemandFrom(item, f), item.data) == Some(MemberFrom(item, f))
  {
  }

  lemma MemberRead(w: Wanted, r: Reader, wr: Writer, st: State, item: Item, f: Front, records: nat)
    returns (end: State)
    requires AgreeOnMembers(w, r, wr) && ItemFits(w, item, f)
    requires st.index + records < MAX_ARCHIVE_MEMBERS
    requires MemberFrom(item, f).path !in st.names && st.total + |item.data| <= MAX_UNCOMPRESSED_SIZE
    ensures Booked(st, MemberFrom(item, f), records + 1, f.globals, end)
    ensures Reads(r, Ready(st, f, records), [wr.member(item.fields, item.data)], end, [MemberFrom(item, f)])
  {
    var ready := Ready(st, f, records);
    var demand := DemandFrom(item, f);
    ReadyDemand(w, st, item, f, records);
    ReadyBooks(w, st, item, f, records);
    end := Absorb(w, ready, demand, item.data).value;
    ReadsOne(r, ready, wr.member(item.fields, item.data), end);
  }

  /** An item is its metadata and its member. */
  lemma ItemRead(w: Wanted, r: Reader, wr: Writer, st: State, item: Item, globals: seq<Setting>)
    returns (end: State)
    requires AgreeOnMetadata(w, r, wr) && AgreeOnMembers(w, r, wr) && Between(st, globals)
    requires LeadAll(Nothing(globals), item.metadata).Some?
    requires ItemFits(w, item, LeadAll(Nothing(globals), item.metadata).value)
    requires st.index + |item.metadata| < MAX_ARCHIVE_MEMBERS
    requires var m := MemberFrom(item, LeadAll(Nothing(globals), item.metadata).value);
             m.path !in st.names && st.total + |m.data| <= MAX_UNCOMPRESSED_SIZE
    ensures var f := LeadAll(Nothing(globals), item.metadata).value;
            && Booked(st, MemberFrom(item, f), |item.metadata| + 1, f.globals, end)
            && Reads(r, st, EncodeItem(wr, item), end, [MemberFrom(item, f)])
  {
    var f, n := LeadAll(Nothing(globals), item.metadata).value, |item.metadata|;
    assert st == Ready(st, Nothing(globals), 0);
    MetadataRead(w, r, wr, st, Nothing(globals), 0, item.metadata);
    end := MemberRead(w, r, wr, st, item, f, n);
    ReadsInTurn(r, st, MetadataOf(wr, item.metadata), Ready(st, f, n), [wr.member(item.fields, item.data)], end, [],
        [MemberFrom(item, f)]);
    assert [] + [MemberFrom(item, f)] == [MemberFrom(item, f)];
  }

  ghost predicate Room(st: State, members: seq<Member>, records: nat) {
    && DistinctFrom(st.names, members)
    && st.total + DataTotal(members) <= MAX_UNCOMPRESSED_SIZE
    && st.index + records <= MAX_ARCHIVE_MEMBERS
  }

  lemma {:induction false} ItemsRead(w: Wanted, r: Reader, wr: Writer, st: State, items: seq<Item>,
      globals: seq<Setting>)
    returns (end: State)
    requires AgreeOnMetadata(w, r, wr) && AgreeOnMembers(w, r, wr)
    requires Between(st, globals) && ItemsFit(w, items, globals)
    requires Room(st, Expected(items, globals), |EncodeItems(wr, items)|)
    ensures !MetadataPending(end) && Reads(r, st, EncodeItems(wr, items), end, Expected(items, globals))
    decreases |items|
  {
    if items == [] {
      return st;
    }
    var item := items[0];
    var f := LeadAll(Nothing(globals), item.metadata).value;
    var members := Expected(items, globals);
    assert members[0] == MemberFrom(item, f) && members[1..] == Expected(items[1..], f.globals);
    var mid := ItemRead(w, r, wr, st, item, globals);
    RoomLeft(st, members, |EncodeItems(wr, items)|, mid, |EncodeItem(wr, item)|, f.globals);
    end := ItemsRead(w, r, wr, mid, items[1..], f.globals);
    ReadsInTurn(r, st, EncodeItem(wr, item), mid, EncodeItems(wr, items[1..]), end, [members[0]], members[1..]);
    assert [members[0]] + members[1..] == members;
  }

  lemma RoomLeft(st: State, members: seq<Member>, records: nat, mid: State, used: nat, globals: seq<Setting>)
    requires members != [] && used <= records && Room(st, members, records)
    requires Booked(st, members[0], used, globals, mid)
    ensures Room(mid, members[1..], records - used)
  {
  }

  lemma {:induction false} ReadingIsFolding(w: Wanted, st: State, entries: seq<Entry>)
    ensures ReadAll(Inspector(w), st, entries) == Fold(TarRules(w), st, entries)
    ensures Fold(TarRules(w), st, entries).Ok? ==> MembersRead(Inspector(w), st, entries) == Members(w, st, entries)
    decreases |entries|
  {
    if entries != [] {
      var step := EntryStep(TarRules(w), st, entries[0]);
      assert Inspector(w).step(st, entries[0]) == step;
      assert Inspector(w).member(st, entries[0]) == MemberOf(w, st, entries[0]);
      if step.Ok? {
        ReadingIsFolding(w, step.value, entries[1..]);
      }
    }
  }

  /** Items within the limits of the inspection. */
  ghost predicate WithinLimits(w: Wanted, items: seq<Item>) {
    && ItemsFit(w, items, [])
    && DistinctFrom({}, Expected(items, []))
    && DataTotal(Expected(items, [])) <= MAX_UNCOMPRESSED_SIZE
    && |EncodeItems(Ustar(), items)| <= MAX_ARCHIVE_MEMBERS
  }

  /** The inspection takes the stream apart into these records, these members and this payload. */
  ghost predicate ReadBack(w: Wanted, stream: seq<Byte>, entries: seq<Entry>, members: seq<Member>,
      payload: seq<Byte>) {
    && Inspect(w, stream) == Ok(payload)
    && Walk(TarRules(w), START, stream).Ok? && Entries(TarRules(w), START, stream) == entries
    && Fold(TarRules(w), START, entries).Ok? && Members(w, START, entries) == members
  }

  /**
   Writing then inspecting gives the same members: their names with the precedence of long name, local
   PAX, global PAX and header, their data, and the payload's data as the result.
   */
  lemma RoundTrip(w: Wanted, items: seq<Item>, zeros: seq<Byte>, payload: seq<Byte>)
    requires WithinLimits(w, items) && Trailer(zeros)
    requires Member(w.root, true, []) in Expected(items, []) && Member(w.payload, false, payload) in Expected(items, [])
    ensures ReadBack(w, Layout(EncodeItems(Ustar(), items)) + zeros, EncodeItems(Ustar(), items), Expected(items, []),
        payload)
  {
    var entries := EncodeItems(Ustar(), items);
    MetadataAgrees(w);
    MembersAgree(w);
    var end := ItemsRead(w, Inspector(w), Ustar(), START, items, []);
    ReadingIsFolding(w, START, entries);
    HeadersAreNotZero(w);
    LayoutWalks(TarRules(w), START, entries, zeros);
    EntriesOfLayout(TarRules(w), START, entries, zeros);
    FoldIsSound(w, START, entries);
  }

  // ---- The limits can be met ----

  function PlainItem(name: seq<Byte>, flag: Byte, data: seq<Byte>): Item {
    Item([], Fields([], name, 493, |data|, flag), data)
  }

  /** The root directory and an executable file in it. */
  function SmallArchive(root: Byte, file: Byte, data: seq<Byte>): seq<Item> {
    [PlainItem([root], FOLDER, []), PlainItem([root, SLASH, file], FILE, data)]
  }

  predicate Letter(b: Byte) {
    97 <= b <= 122
  }

  lemma SmallNames(root: Byte, file: Byte)
    requires Letter(root) && Letter(file)
    ensures ValidateMemberName([root], [root]) == Some([root])
    ensures ValidateMemberName([root, SLASH, file], [root]) == Some([root, SLASH, file])
  {
    assert [root][1..] == [] && [file][1..] == [];
    assert [root, SLASH, file][1..] == [SLASH, file] && [SLASH, file][1..] == [file];
    assert IsUtf8([]) && IsUtf8([file]) && IsUtf8([SLASH, file]);
    OneByteSplits(root);
    OneByteSplits(file);
    assert Split([SLASH, file]) == [[], [file]];
    assert Split([root, SLASH, file]) == [[root], [file]];
  }

  lemma OneByteSplits(b: Byte)
    requires Letter(b)
    ensures Split([b]) == [[b]]
  {
    assert [b][1..] == [] && Split([]) == [[]];
    assert [b] + [] == [b];
    var nothing: seq<seq<Byte>> := [[]];
    assert nothing[1..] == [];
  }

  lemma SmallItemFits(w: Wanted, item: Item)
    requires item == PlainItem(item.fields.name, item.fields.typeflag, item.data)
    requires |item.fields.name| <= 100 && 0 !in item.fields.name && |item.data| < 512
    requires ValidateMemberName(item.fields.name, w.root) == Some(item.fields.name) && !EndsWithSlash(item.fields.name)
    requires (item.fields.typeflag == FOLDER && item.data == [])
          || (item.fields.typeflag == FILE && item.fields.name != w.root && w.accepts(item.data))
    ensures ItemFits(w, item, Nothing([]))
    ensures MemberFrom(item, Nothing([])) == Member(item.fields.name, item.fields.typeflag == FOLDER, item.data)
  {
    EightToTheEleventh();
    assert FinalName(item, Nothing([])) == item.fields.name;
  }

  lemma PlainStep(w: Wanted, items: seq<Item>)
    requires items != [] && items[0].metadata == []
    ensures Expected(items, []) == [MemberFrom(items[0], Nothing([]))] + Expected(items[1..], [])
    ensures ItemsFit(w, items, []) <==> ItemFits(w, items[0], Nothing([])) && ItemsFit(w, items[1..], [])
    ensures |EncodeItems(Ustar(), items)| == 1 + |EncodeItems(Ustar(), items[1..])|
  {
    assert LeadAll(Nothing([]), items[0].metadata) == Some(Nothing([]));
  }

  /** Such an archive is within the limits, so the round trip is about something. */
  lemma SmallArchiveFits(root: Byte, file: Byte, data: seq<Byte>, accepts: seq<Byte> -> bool)
    requires Letter(root) && Letter(file) && |data| < 512 && accepts(data)
    ensures var w := Wanted([root], [root, SLASH, file], accepts);
            var items := SmallArchive(root, file, data);
            && WithinLimits(w, items)
            && Inspect(w, Layout(EncodeItems(Ustar(), items)) + Zeros(1024)) == Ok(data)
  {
    var w := Wanted([root], [root, SLASH, file], accepts);
    var items := SmallArchive(root, file, data);
    var last := [PlainItem([root, SLASH, file], FILE, data)];
    SmallNames(root, file);
    SmallItemFits(w, items[0]);
    SmallItemFits(w, last[0]);
    assert items[1..] == last && last[1..] == [];
    PlainStep(w, items);
    PlainStep(w, last);
    TwoMembers(Expected(items, []), Member([root], true, []), Member([root, SLASH, file], false, data));
    RoundTrip(w, items, Zeros(1024), data);
  }

  lemma TwoMembers(members: seq<Member>, a: Member, b: Member)
    requires members == [a] + ([b] + []) && a.path != b.path && |a.data| + |b.data| < 1024
    ensures a in members && b in members && DistinctFrom({}, members) && DataTotal(members) < 1024
  {
    assert members == [a, b] && members[1..] == [b] && [b][1..] == [];
    assert DataTotal([b]) == |b.data|;
  }
}
