/**
 What each lock-holding operation does to the disk it finds: recovery, activating a downloaded
 version and activating a retained one.  The holder of the lock is the only writer, so the disk at
 the moment of locking determines every later operation.
 */
module Plans {
  import opened Results
  import opened ManagedState

  datatype ActivationResult = ActivationResult(version: Version, changed: bool)

  // ---- The building blocks, in the order the source performs them ----

  function WritePendingOps(record: Pending): seq<Op> {
    [PutPending(record), SyncRoot, Mark(PendingWritten)]
  }

  function SwitchOps(v: Version): seq<Op> {
    [PutSelector(v), SyncCommand, Mark(PointerSwitched)]
  }

  function WriteInstallOps(state: Install): seq<Op> {
    [PutInstall(state), SyncRoot]
  }

  function RemovePendingOps(): seq<Op> {
    [DropPending, Mark(PendingRemoved)]
  }

  function SyncParentsOps(): seq<Op> {
    [SyncRoot, SyncVersions, SyncCommand]
  }

  function DropAllOps(staging: seq<Staged>): seq<Op> {
    if staging == [] then [] else [DropStaged(staging[0].tx)] + DropAllOps(staging[1..])
  }

  function CleanupOps(d: Disk): seq<Op> {
    DropAllOps(d.staging) + [SyncStaging]
  }

  /** Journal, selector, descriptive document, journal removal: the commit of an activation. */
  function CommitOps(from: Option<Version>, to: Version, id: Id, txn: Id): seq<Op> {
    WritePendingOps(Pending(true, from, to, txn))
    + (SwitchOps(to)
    + (WriteInstallOps(Install(true, Some(to), from, id)) + [Mark(InstallWritten)]
    + RemovePendingOps()))
  }

  function FinishOps(tx: Option<Id>): seq<Op> {
    (if tx.Some? then [DropStaged(tx.value), SyncStaging] else [])
    + SyncParentsOps() + [Mark(ParentsSynced)]
  }

  function CreateOps(tx: Id): seq<Op> {
    [CreateStaged(tx), Mark(StagingCreated)]
  }

  function FillOps(tx: Id, content: VersionDir): seq<Op> {
    [FillStaged(tx, content), Mark(PayloadWritten)]
  }

  function SettleOps(): seq<Op> {
    [Mark(Verified), SyncStaging, Mark(StagingSynced)]
  }

  function RenameOps(tx: Id, v: Version): seq<Op> {
    [RenameStaged(tx, v), SyncVersions, SyncStaging, Mark(VersionRenamed)]
  }

  /** Everything up to the verification of what has been written. */
  function AttemptOps(tx: Id, content: VersionDir): seq<Op> {
    CreateOps(tx) + FillOps(tx, content)
  }

  function StageOps(tx: Id, content: VersionDir): seq<Op> {
    AttemptOps(tx, content) + (SettleOps() + RenameOps(tx, content.version))
  }

  function ActivateOps(from: Option<Version>, to: Version, id: Id, txn: Id, tx: Option<Id>): seq<Op> {
    [Mark(SelfTested)] + CommitOps(from, to, id, txn) + FinishOps(tx)
  }

  // ---- Recovery ----

  function Repaired(d: Disk, v: Version): Install
    requires v in d.versions
  {
    var id := d.versions[v].id;
    var previous :=
      if d.install.Some? && d.install.value.previous.Some?
         && d.install.value.previous != Some(v)
         && VerifiedVersion(d, d.install.value.previous.value, Some(id))
      then d.install.value.previous
      else None;
    Install(true, Some(v), previous, id)
  }

  predicate NeedsRepair(d: Disk, v: Version)
    requires v in d.versions
  {
    || d.install.None?
    || d.install.value.active != Some(v)
    || d.install.value.id != d.versions[v].id
  }

  function RecoverLocked(d: Disk): Outcome<bool> {
    if d.install.Some? && !ValidInstall(d.install.value) then Refuse(Invalid)
    else if d.command.Foreign? then Refuse(Invalid)
    else
      var pointer := Pointer(d);
      match d.pending
      case Some(pending) =>
        if !ValidPending(pending) then Refuse(Invalid)
        else if pointer == Some(pending.to) then
          if !VerifiedVersion(d, pending.to, InstallId(d)) then Refuse(Invalid)
          else
            Outcome(
              WriteInstallOps(Install(true, Some(pending.to), pending.from, d.versions[pending.to].id))
              + [Mark(InstallWritten)] + RemovePendingOps()
              + SyncParentsOps() + [Mark(ParentsSynced)] + CleanupOps(d),
              Ok(true))
        else if pointer == pending.from then
          Outcome(RemovePendingOps() + SyncParentsOps() + [Mark(ParentsSynced)] + CleanupOps(d),
                  Ok(d.install.Some?))
        else Refuse(Invalid)
      case None =>
        match pointer
        case None =>
          if d.install.Some? && d.install.value.active.Some? then Refuse(Invalid)
          else Outcome([], Ok(false))
        case Some(v) =>
          if !VerifiedVersion(d, v, None) then Refuse(Invalid)
          else
            Outcome((if NeedsRepair(d, v) then WriteInstallOps(Repaired(d, v)) + SyncParentsOps() else [])
                    + CleanupOps(d),
                    Ok(true))
  }

  predicate PointerPathExists(d: Disk) {
    d.command.Selects? || (d.command.Foreign? && d.command.link)
  }

  /** The unlocked evidence that decides whether there is anything to recover. */
  predicate LooksManaged(d: Disk) {
    && d.root
    && (d.install.Some? || d.pending.Some? || PointerPathExists(d))
    && (PointerPathExists(d) && d.install.None? && d.pending.None? ==> d.command.Selects?)
  }

  function RecoverIfManaged(d: Disk): Outcome<bool> {
    if !LooksManaged(d) then Outcome([], Ok(false))
    else if !d.lockFile then Refuse(Invalid)
    else
      var outcome := RecoverLocked(d);
      Outcome([Mark(LockAcquired)] + outcome.ops, outcome.result)
  }

  // ---- Activation ----

  predicate OneInstallation(d: Disk) {
    && (forall v <- d.versions :: VerifiedVersion(d, v, None))
    && (forall v <- d.versions, w <- d.versions :: d.versions[v].id == d.versions[w].id)
  }

  /** The installation id: recorded, else that of the version itself, else that of any other
      retained version, else a fresh random one. */
  ghost function ChooseId(d: Disk, v: Version, freshId: Id): Res<Id> {
    if d.install.Some? then Ok(d.install.value.id)
    else if v in d.versions then
      if VerifiedVersion(d, v, None) then Ok(d.versions[v].id) else Err(Invalid)
    else if !exists w :: w in d.versions then Ok(freshId)
    else if !OneInstallation(d) then Err(Invalid)
    else var w :| w in d.versions; Ok(d.versions[w].id)
  }

  /** What ends up in the transaction: the release with the chosen id, or anything else. */
  datatype Written = AsReleased | Otherwise(content: VersionDir)

  /** A request to activate a downloaded release: what was fetched, what randomness will yield, what
      extraction will write and whether the configured self-test accepts the payload. */
  datatype Download = Download(
    version: Version, signed: Signed, freshId: Id, tx: Id, txn: Id, written: Written, selfTest: bool)

  function Content(request: Download, id: Id): VersionDir {
    match request.written
    case AsReleased => VersionDir(request.version, id, request.signed, true)
    case Otherwise(content) => content
  }

  /** Full verification of the directory in the transaction. */
  predicate VerifiedStaged(content: VersionDir, v: Version, id: Id) {
    content.intact && content.version == v && content.id == id
  }

  /** Staging ends at the verification unless it succeeds. */
  function Stage(tx: Id, content: VersionDir, v: Version, id: Id): Outcome<()> {
    if VerifiedStaged(content, v, id) then Outcome(StageOps(tx, content), Ok(()))
    else Outcome(AttemptOps(tx, content), Err(Invalid))
  }

  datatype Retained = Retained(target: Version, txn: Id, selfTest: bool)

  predicate SameRelease(d: Disk, v: Version, id: Id, signed: Signed) {
    VerifiedVersion(d, v, Some(id)) && d.versions[v].signed == signed
  }

  /** Already at or above the requested version: unchanged, refused or a downgrade. */
  function NotNewer(d: Disk, request: Download, current: Version, state: Install): Res<ActivationResult> {
    if request.version < current then Err(Downgrade(current, request.version))
    else if SameRelease(d, current, state.id, request.signed) && CommandOwned(d)
    then Ok(ActivationResult(current, false))
    else Err(Invalid)
  }

  ghost function ActivateFresh(d: Disk, request: Download, id: Id): Outcome<ActivationResult> {
    var cleanup := CleanupOps(d);
    var v := request.version;
    if !CommandOwned(d) then Outcome(cleanup, Err(Invalid))
    else if v in d.versions && !SameRelease(d, v, id, request.signed) then Outcome(cleanup, Err(Invalid))
    else
      var stage := if v in d.versions then Outcome([], Ok(())) else Stage(request.tx, Content(request, id), v, id);
      var tx := if v in d.versions then None else Some(request.tx);
      if stage.result.Err? || !request.selfTest then Outcome(cleanup + stage.ops, Err(Invalid))
      else
        Outcome(cleanup + stage.ops + ActivateOps(Pointer(d), v, id, if tx.Some? then tx.value else request.txn, tx),
                Ok(ActivationResult(v, true)))
  }

  ghost function ActivateDownloadLocked(d: Disk, request: Download): Outcome<ActivationResult> {
    if d.install.Some? && !ValidInstall(d.install.value) then Refuse(Invalid)
    else if d.command.Foreign? then Refuse(Invalid)
    else if d.install.Some? && d.command.Selects? && request.version <= d.command.version then
      Outcome([], NotNewer(d, request, d.command.version, d.install.value))
    else
      var chosen := ChooseId(d, request.version, request.freshId);
      if chosen.Err? then Refuse(chosen.error)
      else ActivateFresh(d, request, chosen.value)
  }

  function ActivateExistingLocked(d: Disk, request: Retained): Outcome<ActivationResult> {
    if d.install.None? then Refuse(Unmanaged)
    else if d.command.Foreign? then Refuse(Invalid)
    else if d.command.NoCommand? then Refuse(Unmanaged)
    else if request.target >= d.command.version then Refuse(Invalid)
    else if !CommandOwned(d) || !VerifiedVersion(d, request.target, InstallId(d)) then Refuse(Invalid)
    else if !request.selfTest then Outcome([Mark(Verified)], Err(Invalid))
    else
      Outcome([Mark(Verified)]
              + ActivateOps(Pointer(d), request.target, d.install.value.id, request.txn, None),
              Ok(ActivationResult(request.target, true)))
  }
}
