/** Recovery and both kinds of activation are safe plans on every good disk, with their final disks. */
module PlanSafety {
  import opened Results
  import opened ManagedState
  import opened Plans
  import opened Consistency

  /** The disk once a version directory has been staged, verified and renamed into place. */
  function WithVersion(d: Disk, tx: Id, content: VersionDir): Disk {
    d.(versions := d.versions[content.version := content], staging := [Staged(tx, None)])
  }

  ghost predicate Insertable(d: Disk, content: VersionDir, rel: Catalogue) {
    && Good(d, rel) && d.root
    && content.version !in d.versions
    && content.intact && content.signed == rel(content.version)
    && (forall v <- d.versions :: d.versions[v].id == content.id)
    && (d.install.Some? ==> d.install.value.id == content.id)
  }

  /** Inserting a verified directory of the same installation keeps the disk good. */
  lemma InsertGood(d: Disk, tx: Id, content: VersionDir, rel: Catalogue)
    requires Insertable(d, content, rel)
    ensures Good(WithVersion(d, tx, content), rel)
  {
  }

  lemma StageOne(d: Disk, tx: Id, content: VersionDir)
    requires d.staging == []
    ensures Apply(d, CreateStaged(tx)) == d.(staging := [Staged(tx, None)])
    ensures var d1 := d.(staging := [Staged(tx, None)]);
            Apply(d1, FillStaged(tx, content)) == d.(staging := [Staged(tx, Some(content))])
    ensures var d2 := d.(staging := [Staged(tx, Some(content))]);
            && StagedContent(d2.staging, tx) == Some(content)
            && (content.version !in d.versions ==>
                  Apply(d2, RenameStaged(tx, content.version)) == WithVersion(d, tx, content))
  {
  }

  lemma CreateSafe(d: Disk, tx: Id, rel: Catalogue)
    requires Good(d, rel) && d.root && d.staging == []
    ensures PlanSafe(d, CreateOps(tx), rel)
    ensures ApplyAll(d, CreateOps(tx)) == d.(staging := [Staged(tx, None)])
  {
    ChangeSafe(d, CreateStaged(tx), [Mark(StagingCreated)], rel);
    assert CreateOps(tx) == [CreateStaged(tx)] + [Mark(StagingCreated)];
  }

  lemma FillSafe(d: Disk, tx: Id, content: VersionDir, rel: Catalogue)
    requires Good(d, rel) && d.root && d.staging == [Staged(tx, None)]
    ensures PlanSafe(d, FillOps(tx, content), rel)
    ensures ApplyAll(d, FillOps(tx, content)) == d.(staging := [Staged(tx, Some(content))])
  {
    var quiet := [Mark(PayloadWritten)];
    StageOne(d.(staging := []), tx, content);
    ChangeSafe(d, FillStaged(tx, content), quiet, rel);
    assert FillOps(tx, content) == [FillStaged(tx, content)] + quiet;
  }

  lemma RenameSafe(d: Disk, tx: Id, content: VersionDir, rel: Catalogue)
    requires Insertable(d, content, rel) && d.staging == [Staged(tx, Some(content))]
    ensures PlanSafe(d, RenameOps(tx, content.version), rel)
    ensures ApplyAll(d, RenameOps(tx, content.version)) == WithVersion(d, tx, content)
  {
    var op, quiet := RenameStaged(tx, content.version), [SyncVersions, SyncStaging, Mark(VersionRenamed)];
    StageOne(d.(staging := []), tx, content);
    InsertGood(d, tx, content, rel);
    RenameRefines(d, tx, content);
    ChangeSafe(d, op, quiet, rel);
    assert RenameOps(tx, content.version) == [op] + quiet;
  }

  /** To the register the rename is one insertion. */
  lemma RenameRefines(d: Disk, tx: Id, content: VersionDir)
    requires d.staging == [Staged(tx, Some(content))] && content.version !in d.versions
    ensures Refines(d, RenameStaged(tx, content.version))
  {
    StageOne(d.(staging := []), tx, content);
  }

  /** Whatever is written into a transaction, the disk stays good. */
  lemma AttemptSafe(d: Disk, tx: Id, content: VersionDir, rel: Catalogue)
    requires Good(d, rel) && d.root && d.staging == []
    ensures PlanSafe(d, AttemptOps(tx, content), rel)
    ensures ApplyAll(d, AttemptOps(tx, content)) == d.(staging := [Staged(tx, Some(content))])
  {
    var d1 := d.(staging := [Staged(tx, None)]);
    CreateSafe(d, tx, rel);
    FillSafe(d1, tx, content, rel);
    Then(d, CreateOps(tx), d1, FillOps(tx, content), rel);
  }

  lemma StageSafe(d: Disk, tx: Id, content: VersionDir, rel: Catalogue)
    requires Insertable(d, content, rel) && d.staging == []
    ensures PlanSafe(d, StageOps(tx, content), rel)
    ensures ApplyAll(d, StageOps(tx, content)) == WithVersion(d, tx, content)
  {
    var d2 := d.(staging := [Staged(tx, Some(content))]);
    AttemptSafe(d, tx, content, rel);
    QuietSafe(d2, SettleOps(), rel);
    RenameSafe(d2, tx, content, rel);
    Then(d2, SettleOps(), d2, RenameOps(tx, content.version), rel);
    Then(d, AttemptOps(tx, content), d2, SettleOps() + RenameOps(tx, content.version), rel);
  }

  /** The staging area once the transaction of a finished activation is removed. */
  function Finished(d: Disk, tx: Option<Id>): Disk {
    if tx.Some? then d.(staging := WithoutTx(d.staging, tx.value)) else d
  }

  lemma FinishSafe(d: Disk, tx: Option<Id>, rel: Catalogue)
    requires Good(d, rel)
    ensures PlanSafe(d, FinishOps(tx), rel)
    ensures ApplyAll(d, FinishOps(tx)) == Finished(d, tx)
  {
    var rest := SyncParentsOps() + [Mark(ParentsSynced)];
    var after := Finished(d, tx);
    if tx.Some? {
      WithoutTxShrinks(d.staging, tx.value);
      assert Apply(d, DropStaged(tx.value)) == after;
      ChangeSafe(d, DropStaged(tx.value), [SyncStaging], rel);
      QuietSafe(after, rest, rel);
      Then(d, [DropStaged(tx.value)] + [SyncStaging], after, rest, rel);
      assert FinishOps(tx) == [DropStaged(tx.value)] + [SyncStaging] + rest;
    } else {
      QuietSafe(d, rest, rel);
      assert FinishOps(tx) == rest;
    }
  }

  lemma ActivateSafe(d: Disk, to: Version, id: Id, txn: Id, tx: Option<Id>, rel: Catalogue)
    requires ReadyToCommit(d, Pointer(d), to, id, rel)
    ensures PlanSafe(d, ActivateOps(Pointer(d), to, id, txn, tx), rel)
    ensures ApplyAll(d, ActivateOps(Pointer(d), to, id, txn, tx)) == Finished(Committed(d, Pointer(d), to, id), tx)
  {
    var from := Pointer(d);
    var committed := Committed(d, from, to, id);
    QuietSafe(d, [Mark(SelfTested)], rel);
    CommitSafe(d, from, to, id, txn, rel);
    Then(d, [Mark(SelfTested)], d, CommitOps(from, to, id, txn), rel);
    FinishSafe(committed, tx, rel);
    Then(d, [Mark(SelfTested)] + CommitOps(from, to, id, txn), committed, FinishOps(tx), rel);
  }

  // ---- Recovery ----

  /** What a recovery that finds a selected version leaves: the register written out in full. */
  function Recovered(d: Disk): Disk
    requires Pointer(d).Some? && Pointer(d).value in d.versions
  {
    var v := Pointer(d).value;
    d.(pending := None, staging := [],
       install := Some(Install(true, Some(v), Previous(d), d.versions[v].id)))
  }

  lemma TailSafe(d: Disk, rel: Catalogue)
    requires Good(d, rel)
    ensures var ops := SyncParentsOps() + [Mark(ParentsSynced)] + CleanupOps(d);
            PlanSafe(d, ops, rel) && ApplyAll(d, ops) == d.(staging := [])
  {
    QuietSafe(d, SyncParentsOps() + [Mark(ParentsSynced)], rel);
    CleanupSafe(d, rel);
    Then(d, SyncParentsOps() + [Mark(ParentsSynced)], d, CleanupOps(d), rel);
  }

  /** The document that completes an executed record. */
  function Completed(d: Disk, record: Pending): Install
    requires record.to in d.versions
  {
    Install(true, Some(record.to), record.from, d.versions[record.to].id)
  }

  lemma CompletedGood(d: Disk, rel: Catalogue)
    requires Good(d, rel) && d.pending.Some? && Pointer(d) == Some(d.pending.value.to)
    ensures var d1 := d.(install := Some(Completed(d, d.pending.value)));
            && Good(d1, rel) && Describes(d1, Pointer(d1)) && Previous(d1) == Previous(d)
            && Previous(d1.(pending := None)) == Previous(d1) && Good(d1.(pending := None), rel)
            && d1.(pending := None, staging := []) == Recovered(d)
  {
  }

  lemma ForwardHead(d: Disk, rel: Catalogue)
    requires Good(d, rel) && d.pending.Some? && Pointer(d) == Some(d.pending.value.to)
    ensures var state := Completed(d, d.pending.value);
            var head := WriteInstallOps(state) + [Mark(InstallWritten)] + RemovePendingOps();
            PlanSafe(d, head, rel) && ApplyAll(d, head) == d.(install := Some(state), pending := None)
  {
    var state := Completed(d, d.pending.value);
    var d1 := d.(install := Some(state));
    CompletedGood(d, rel);
    WriteInstallSafe(d, state, rel);
    QuietSafe(d1, [Mark(InstallWritten)], rel);
    RemovePendingSafe(d1, rel);
    Then(d, WriteInstallOps(state), d1, [Mark(InstallWritten)], rel);
    Then(d, WriteInstallOps(state) + [Mark(InstallWritten)], d1, RemovePendingOps(), rel);
  }

  lemma CompleteForward(d: Disk, rel: Catalogue)
    requires Good(d, rel) && d.pending.Some? && Pointer(d) == Some(d.pending.value.to)
    ensures var o := RecoverLocked(d);
            o.result == Ok(true) && PlanSafe(d, o.ops, rel) && ApplyAll(d, o.ops) == Recovered(d)
  {
    var state := Completed(d, d.pending.value);
    var d2 := d.(install := Some(state), pending := None);
    var head := WriteInstallOps(state) + [Mark(InstallWritten)] + RemovePendingOps();
    var tail := SyncParentsOps() + [Mark(ParentsSynced)] + CleanupOps(d2);
    CompletedGood(d, rel);
    ForwardHead(d, rel);
    TailSafe(d2, rel);
    Then(d, head, d2, tail, rel);
    assert RecoverLocked(d).ops == head + tail;
  }

  lemma DiscardJournal(d: Disk, rel: Catalogue)
    requires Good(d, rel) && d.pending.Some? && Pointer(d) == d.pending.value.from
    ensures var o := RecoverLocked(d);
            && o.result == Ok(d.install.Some?) && PlanSafe(d, o.ops, rel)
            && ApplyAll(d, o.ops) == d.(pending := None, staging := [])
  {
    var d1 := d.(pending := None);
    RemovePendingSafe(d, rel);
    TailSafe(d1, rel);
    var tail := SyncParentsOps() + [Mark(ParentsSynced)] + CleanupOps(d1);
    Then(d, RemovePendingOps(), d1, tail, rel);
    assert RecoverLocked(d).ops == RemovePendingOps() + tail;
  }

  /** Recovery of a good disk: safe at every prefix, never refused, register unchanged. */
  lemma RecoverSafe(d: Disk, rel: Catalogue)
    requires Good(d, rel)
    ensures PlanSafe(d, RecoverLocked(d).ops, rel)
    ensures !d.command.Foreign? ==> RecoverLocked(d).result.Ok?
    ensures var d' := ApplyAll(d, RecoverLocked(d).ops);
            && Good(d', rel) && Abs(d') == Abs(d)
            && (!d.command.Foreign? ==> d'.pending.None?)
            && (d.command.Selects? ==> RecoverLocked(d).result == Ok(true) && d' == Recovered(d))
  {
    if d.command.Foreign? {
    } else if d.pending.Some? {
      if Pointer(d) == Some(d.pending.value.to) {
        CompleteForward(d, rel);
      } else {
        DiscardJournal(d, rel);
      }
    } else if d.command.Selects? {
      CleanupSafe(d, rel);
      assert RecoverLocked(d).ops == CleanupOps(d);
    }
  }

  // ---- Activation ----

  lemma ChooseIdSound(d: Disk, v: Version, other: Id, rel: Catalogue)
    requires Good(d, rel)
    ensures var id := ChooseId(d, v, other);
            && id.Ok?
            && (forall w <- d.versions :: d.versions[w].id == id.value)
            && (d.install.Some? ==> d.install.value.id == id.value)
  {
  }

  /** What was fetched is the release; whatever is written, only released bytes pass verification. */
  predicate Fetched(request: Download, rel: Catalogue) {
    && request.signed == rel(request.version)
    && (request.written.Otherwise? && request.written.content.intact ==>
          request.written.content.signed == rel(request.written.content.version))
  }

  /** Verification lets nothing through but the release with the chosen id. */
  lemma VerifiedIsReleased(request: Download, id: Id, rel: Catalogue)
    requires Fetched(request, rel)
    ensures VerifiedStaged(Content(request, id), request.version, id)
       <==> Content(request, id) == VersionDir(request.version, id, request.signed, true)
  {
  }

  /** The version is retained already, or what extraction writes will pass. */
  predicate Stageable(d: Disk, request: Download, id: Id) {
    request.version in d.versions || VerifiedStaged(Content(request, id), request.version, id)
  }

  /** The disk a successful activation of a downloaded version leaves. */
  function Activated(d: Disk, request: Download, id: Id): Disk {
    var v := request.version;
    var versions := if v in d.versions then d.versions else d.versions[v := VersionDir(v, id, request.signed, true)];
    Committed(d.(versions := versions), Pointer(d), v, id).(staging := [])
  }

  ghost predicate SameInstallation(d: Disk, id: Id) {
    && (forall w <- d.versions :: d.versions[w].id == id)
    && (d.install.Some? ==> d.install.value.id == id)
  }

  /** Staging, if the version is not retained yet: the disk from which the activation commits. */
  function Staging(d: Disk, request: Download, id: Id): Disk {
    var clean := d.(staging := []);
    if request.version in d.versions then clean
    else WithVersion(clean, request.tx, VersionDir(request.version, id, request.signed, true))
  }

  lemma StagingSafe(d: Disk, request: Download, id: Id, rel: Catalogue)
    requires Good(d, rel) && d.root && d.lockFile && Fetched(request, rel) && SameInstallation(d, id)
    requires Stageable(d, request, id)
    ensures var staged := if request.version in d.versions then []
                          else StageOps(request.tx, VersionDir(request.version, id, request.signed, true));
            && PlanSafe(d, CleanupOps(d) + staged, rel)
            && ApplyAll(d, CleanupOps(d) + staged) == Staging(d, request, id)
            && Good(Staging(d, request, id), rel)
  {
    var clean := d.(staging := []);
    var content := VersionDir(request.version, id, request.signed, true);
    CleanupSafe(d, rel);
    if request.version in d.versions {
      assert CleanupOps(d) + [] == CleanupOps(d);
    } else {
      StageSafe(clean, request.tx, content, rel);
      InsertGood(clean, request.tx, content, rel);
      Then(d, CleanupOps(d), clean, StageOps(request.tx, content), rel);
    }
  }

  lemma ActivateFreshSafe(d: Disk, request: Download, id: Id, rel: Catalogue)
    requires Good(d, rel) && d.root && d.lockFile && Fetched(request, rel) && !d.command.Foreign?
    requires SameInstallation(d, id)
    requires Pointer(d).Some? && d.install.Some? ==> Pointer(d).value < request.version
    ensures var o := ActivateFresh(d, request, id);
            && PlanSafe(d, o.ops, rel)
            && (o.result.Ok? <==> CommandOwned(d) && request.selfTest && Stageable(d, request, id))
            && (o.result.Ok? ==>
                  && o.result.value == ActivationResult(request.version, true)
                  && ApplyAll(d, o.ops) == Activated(d, request, id))
  {
    CleanupSafe(d, rel);
    if CommandOwned(d) {
      VerifiedIsReleased(request, id, rel);
      if Stageable(d, request, id) {
        StagingSafe(d, request, id, rel);
        if request.selfTest {
          CommitFresh(d, request, id, rel);
        }
      } else {
        var clean := d.(staging := []);
        AttemptSafe(clean, request.tx, Content(request, id), rel);
        Then(d, CleanupOps(d), clean, AttemptOps(request.tx, Content(request, id)), rel);
      }
    }
  }

  /** What a fresh activation does before its commit, and the commit itself. */
  function StagingOps(d: Disk, request: Download, id: Id): seq<Op> {
    CleanupOps(d) + (if request.version in d.versions then []
                     else StageOps(request.tx, VersionDir(request.version, id, request.signed, true)))
  }

  function CommittingOps(d: Disk, request: Download, id: Id): seq<Op> {
    var v := request.version;
    if v in d.versions then ActivateOps(Pointer(d), v, id, request.txn, None)
    else ActivateOps(Pointer(d), v, id, request.tx, Some(request.tx))
  }

  lemma FreshOps(d: Disk, request: Download, id: Id, rel: Catalogue)
    requires Good(d, rel) && Fetched(request, rel) && SameInstallation(d, id)
    requires CommandOwned(d) && request.selfTest && Stageable(d, request, id)
    ensures ActivateFresh(d, request, id)
         == Outcome(StagingOps(d, request, id) + CommittingOps(d, request, id),
                    Ok(ActivationResult(request.version, true)))
  {
    VerifiedIsReleased(request, id, rel);
  }

  /** Removing the transaction of the activation empties the staging area. */
  lemma FinishedIsActivated(d: Disk, request: Download, id: Id)
    ensures var tx := if request.version in d.versions then None else Some(request.tx);
            Finished(Committed(Staging(d, request, id), Pointer(d), request.version, id), tx)
              == Activated(d, request, id)
  {
    assert [Staged(request.tx, None)][1..] == [];
    assert WithoutTx([Staged(request.tx, None)], request.tx) == [];
  }

  lemma CommitFresh(d: Disk, request: Download, id: Id, rel: Catalogue)
    requires Good(d, rel) && d.root && d.lockFile && Fetched(request, rel) && !d.command.Foreign?
    requires SameInstallation(d, id) && CommandOwned(d) && request.selfTest && Stageable(d, request, id)
    requires Pointer(d).Some? && d.install.Some? ==> Pointer(d).value < request.version
    ensures var o := ActivateFresh(d, request, id);
            && PlanSafe(d, o.ops, rel)
            && ApplyAll(d, o.ops) == Activated(d, request, id)
  {
    var v := request.version;
    var ready := Staging(d, request, id);
    StagingSafe(d, request, id, rel);
    if v in d.versions {
      ActivateSafe(ready, v, id, request.txn, None, rel);
    } else {
      ActivateSafe(ready, v, id, request.tx, Some(request.tx), rel);
    }
    FreshOps(d, request, id, rel);
    FinishedIsActivated(d, request, id);
    Then(d, StagingOps(d, request, id), ready, CommittingOps(d, request, id), rel);
  }

  lemma DownloadSafe(d: Disk, request: Download, rel: Catalogue)
    requires Good(d, rel) && d.root && d.lockFile && Fetched(request, rel)
    ensures PlanSafe(d, ActivateDownloadLocked(d, request).ops, rel)
  {
    if !d.command.Foreign? && !(d.install.Some? && d.command.Selects? && request.version <= d.command.version) {
      ChooseIdSound(d, request.version, request.freshId, rel);
      ActivateFreshSafe(d, request, ChooseId(d, request.version, request.freshId).value, rel);
    }
  }

  lemma RetainedSafe(d: Disk, request: Retained, rel: Catalogue)
    requires Good(d, rel)
    ensures var o := ActivateExistingLocked(d, request);
            && PlanSafe(d, o.ops, rel)
            && (o.result.Ok? ==>
                  ApplyAll(d, o.ops) == Committed(d, Pointer(d), request.target, d.install.value.id))
  {
    var o := ActivateExistingLocked(d, request);
    if o.result.Ok? {
      var ops := ActivateOps(Pointer(d), request.target, d.install.value.id, request.txn, None);
      QuietSafe(d, [Mark(Verified)], rel);
      ActivateSafe(d, request.target, d.install.value.id, request.txn, None, rel);
      Then(d, [Mark(Verified)], d, ops, rel);
    } else {
      QuietSafe(d, o.ops, rel);
    }
  }
}
