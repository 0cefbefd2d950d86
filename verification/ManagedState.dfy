/**
 The persistent state of one managed installation on Unix and the atomic operations that change it.

 Versions enter the activation protocol only through equality and their total order, so an integer
 stands for a semantic version; `Names` models their text.  Signed metadata and identifiers enter
 only through equality.
 */
module ManagedState {
  import opened Results

  type Version = int
  type Id = nat
  type Signed = nat

  /** A boundary after which a durable step has completed. */
  datatype FaultPoint =
    | LockAcquired | StagingCreated | PayloadWritten | Verified | StagingSynced | VersionRenamed
    | SelfTested | PendingWritten | PointerSwitched | InstallWritten | PendingRemoved | ParentsSynced

  datatype Error =
    | Unmanaged
    | Downgrade(current: Version, requested: Version)
    | Invalid
    | Fault(point: FaultPoint)

  type Res<+T> = Result<T, Error>

  /** One directory under `versions/`.  `intact` stands for every check on its members and digests. */
  datatype VersionDir = VersionDir(version: Version, id: Id, signed: Signed, intact: bool)

  /** One transaction under `.staging/`, with its version directory once that has been filled. */
  datatype Staged = Staged(tx: Id, content: Option<VersionDir>)

  /** The command path: absent, our symlink to a payload, or something this engine did not make. */
  datatype Command = NoCommand | Selects(version: Version) | Foreign(link: bool)

  /** `fieldsOk` stands for the schema number and identifier checks on a document. */
  datatype Install = Install(fieldsOk: bool, active: Option<Version>, previous: Option<Version>, id: Id)

  datatype Pending = Pending(fieldsOk: bool, from: Option<Version>, to: Version, txn: Id)

  datatype Disk = Disk(
    root: bool,
    lockFile: bool,
    versions: map<Version, VersionDir>,
    staging: seq<Staged>,
    pending: Option<Pending>,
    command: Command,
    install: Option<Install>)

  predicate SubMap(a: map<Version, VersionDir>, b: map<Version, VersionDir>) {
    a.Keys <= b.Keys && forall v <- a :: a[v] == b[v]
  }

  lemma Sandwich(a: map<Version, VersionDir>, b: map<Version, VersionDir>)
    requires SubMap(a, b) && SubMap(b, a)
    ensures a == b
  {
    assert forall v: Version | v in a || v in b :: v in a && v in b && a[v] == b[v];
  }

  predicate ValidInstall(state: Install) {
    && state.fieldsOk
    && (state.active.None? ==> state.previous.None?)
    && (state.active.Some? ==> state.active != state.previous)
  }

  predicate ValidPending(pending: Pending) {
    pending.fieldsOk && pending.from != Some(pending.to)
  }

  function Pointer(d: Disk): Option<Version> {
    if d.command.Selects? then Some(d.command.version) else None
  }

  /** Full verification of a retained version, optionally against an installation id. */
  predicate VerifiedVersion(d: Disk, v: Version, id: Option<Id>) {
    && v in d.versions
    && d.versions[v].intact
    && d.versions[v].version == v
    && (id.Some? ==> d.versions[v].id == id.value)
  }

  function InstallId(d: Disk): Option<Id> {
    if d.install.Some? then Some(d.install.value.id) else None
  }

  /** Whether the command path may be replaced: absent, or described by install.json as ours. */
  predicate CommandOwned(d: Disk) {
    || d.command.NoCommand?
    || (&& d.command.Selects?
        && d.install.Some?
        && d.install.value.active == Some(d.command.version)
        && VerifiedVersion(d, d.command.version, Some(d.install.value.id)))
  }

  /**
   One atomic change of the disk, one durability barrier, or one fault boundary.  Replacing a file
   is a `Put` followed by the synchronisation of its directory.
   */
  datatype Op =
    | Mark(point: FaultPoint)
    | CreateStaged(tx: Id)
    | FillStaged(tx: Id, content: VersionDir)
    | RenameStaged(tx: Id, version: Version)
    | DropStaged(tx: Id)
    | PutPending(record: Pending)
    | DropPending
    | PutSelector(version: Version)
    | PutInstall(state: Install)
    | SyncRoot
    | SyncVersions
    | SyncCommand
    | SyncStaging

  function StagedContent(staging: seq<Staged>, tx: Id): Option<VersionDir> {
    if staging == [] then None
    else if staging[0].tx == tx then staging[0].content
    else StagedContent(staging[1..], tx)
  }

  function SetContent(staging: seq<Staged>, tx: Id, content: Option<VersionDir>): seq<Staged> {
    if staging == [] then []
    else if staging[0].tx == tx then [Staged(tx, content)] + staging[1..]
    else [staging[0]] + SetContent(staging[1..], tx, content)
  }

  function WithoutTx(staging: seq<Staged>, tx: Id): seq<Staged> {
    if staging == [] then []
    else if staging[0].tx == tx then WithoutTx(staging[1..], tx)
    else [staging[0]] + WithoutTx(staging[1..], tx)
  }

  /** The no-replace rename succeeds only for a filled transaction and a free destination. */
  predicate Renames(d: Disk, tx: Id, v: Version) {
    v !in d.versions && StagedContent(d.staging, tx).Some?
  }

  function Apply(d: Disk, op: Op): Disk {
    match op
    case Mark(_) => d
    case CreateStaged(tx) => d.(staging := d.staging + [Staged(tx, None)])
    case FillStaged(tx, content) => d.(staging := SetContent(d.staging, tx, Some(content)))
    case RenameStaged(tx, v) =>
      if Renames(d, tx, v)
      then d.(versions := d.versions[v := StagedContent(d.staging, tx).value],
              staging := SetContent(d.staging, tx, None))
      else d
    case DropStaged(tx) => d.(staging := WithoutTx(d.staging, tx))
    case PutPending(record) => d.(pending := Some(record))
    case DropPending => d.(pending := None)
    case PutSelector(v) => d.(command := Selects(v))
    case PutInstall(state) => d.(install := Some(state))
    case SyncRoot => d
    case SyncVersions => d
    case SyncCommand => d
    case SyncStaging => d
  }

  function ApplyAll(d: Disk, ops: seq<Op>): Disk
    decreases |ops|
  {
    if ops == [] then d else ApplyAll(Apply(d, ops[0]), ops[1..])
  }

  lemma {:induction false} ApplyAllConcat(d: Disk, a: seq<Op>, b: seq<Op>)
    ensures ApplyAll(d, a + b) == ApplyAll(ApplyAll(d, a), b)
    decreases |a|
  {
    if a == [] {
      assert a + b == b;
    } else {
      assert (a + b)[1..] == a[1..] + b;
      ApplyAllConcat(Apply(d, a[0]), a[1..], b);
    }
  }

  /** What a locked operation does: the operations it performs in order, then its result. */
  datatype Outcome<+T> = Outcome(ops: seq<Op>, result: Res<T>)

  function Refuse<T>(error: Error): Outcome<T> {
    Outcome([], Err(error))
  }
}
