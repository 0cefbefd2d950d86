/**
 Power loss.  A directory operation is durable only once its directory has been synchronised; until
 then a power cut may keep or lose it independently of every other.  For one directory entry that
 means: any value it has held since the last synchronisation may be the one that survives.  This
 module says for any medium, however it came about, exactly which operations withstand a power cut at
 every point.
 */
module Durability {
  import opened Results
  import opened ManagedState
  import opened Plans
  import opened Consistency
  import opened PlanSafety

  /** The visible disk, and for each journalled entry the values a power cut may leave. */
  datatype Media = Media(
    vol: Disk,
    pendings: set<Option<Pending>>,
    installs: set<Option<Install>>,
    commands: set<Command>,
    settled: map<Version, VersionDir>,
    lockSettled: bool)

  /** A medium on which everything visible is durable. */
  function Durable(d: Disk): Media {
    Media(d, {d.pending}, {d.install}, {d.command}, d.versions, true)
  }

  /** The disks a power cut may leave.  The staging area is only ever swept, so it is arbitrary. */
  predicate Survives(m: Media, d: Disk) {
    && d.root == m.vol.root
    && (d.lockFile == m.vol.lockFile || (!m.lockSettled && !d.lockFile))
    && d.pending in m.pendings && d.install in m.installs && d.command in m.commands
    && SubMap(m.settled, d.versions) && SubMap(d.versions, m.vol.versions)
  }

  function MediaApply(m: Media, op: Op): Media {
    var vol := Apply(m.vol, op);
    match op
    case PutPending(_) => m.(vol := vol, pendings := m.pendings + {vol.pending})
    case DropPending => m.(vol := vol, pendings := m.pendings + {vol.pending})
    case PutInstall(_) => m.(vol := vol, installs := m.installs + {vol.install})
    case PutSelector(_) => m.(vol := vol, commands := m.commands + {vol.command})
    case SyncRoot => m.(vol := vol, pendings := {vol.pending}, installs := {vol.install}, lockSettled := true)
    case SyncCommand => m.(vol := vol, commands := {vol.command})
    case SyncVersions => m.(vol := vol, settled := vol.versions)
    case _ => m.(vol := vol)
  }

  function MediaApplyAll(m: Media, ops: seq<Op>): Media
    decreases |ops|
  {
    if ops == [] then m else MediaApplyAll(MediaApply(m, ops[0]), ops[1..])
  }

  /** What is visible may survive, and a command that is not ours is durable: we never replace one. */
  predicate Shape(m: Media) {
    && m.vol.root
    && m.vol.pending in m.pendings && m.vol.install in m.installs && m.vol.command in m.commands
    && SubMap(m.settled, m.vol.versions)
    && (forall c <- m.commands :: c.Foreign? ==> m.commands == {m.vol.command})
  }

  ghost predicate AllGood(m: Media, rel: Catalogue) {
    Shape(m) && forall d :: Survives(m, d) ==> Good(d, rel)
  }

  /** Whenever the power is cut while `ops` are performed, the disk that is left is good. */
  ghost predicate Withstands(m: Media, ops: seq<Op>, rel: Catalogue)
    decreases |ops|
  {
    AllGood(m, rel) && (ops != [] ==> Withstands(MediaApply(m, ops[0]), ops[1..], rel))
  }

  lemma {:induction false} WithstandsConcat(m: Media, a: seq<Op>, b: seq<Op>, rel: Catalogue)
    ensures Withstands(m, a + b, rel) <==> Withstands(m, a, rel) && Withstands(MediaApplyAll(m, a), b, rel)
    ensures MediaApplyAll(m, a + b) == MediaApplyAll(MediaApplyAll(m, a), b)
    decreases |a|
  {
    if a == [] {
      assert a + b == b;
    } else {
      assert (a + b)[1..] == a[1..] + b;
      WithstandsConcat(MediaApply(m, a[0]), a[1..], b, rel);
    }
  }

  lemma {:induction false} MediaFollowsDisk(m: Media, ops: seq<Op>)
    ensures MediaApplyAll(m, ops).vol == ApplyAll(m.vol, ops)
    decreases |ops|
  {
    if ops != [] {
      MediaFollowsDisk(MediaApply(m, ops[0]), ops[1..]);
    }
  }

  /** The visible disk is one of those that may survive. */
  lemma VisibleIsGood(m: Media, rel: Catalogue)
    requires AllGood(m, rel)
    ensures Good(m.vol, rel)
  {
    assert Survives(m, m.vol);
  }

  lemma VersionsKept(m: Media, d: Disk)
    requires Survives(m, d) && m.settled == m.vol.versions
    ensures d.versions == m.vol.versions
  {
    Sandwich(d.versions, m.vol.versions);
  }

  // ---- Operations that put nothing at risk ----

  /** Operations in the staging area, and boundaries. */
  predicate Local(op: Op) {
    op.Mark? || op.SyncStaging? || op.CreateStaged? || op.FillStaged? || op.DropStaged?
  }

  predicate Harmless(op: Op) {
    Local(op) || Quiet(op)
  }

  /** Fewer surviving disks cannot be worse. */
  lemma FewerSurvivors(m: Media, m': Media, rel: Catalogue)
    requires AllGood(m, rel) && Shape(m')
    requires m'.vol == m.vol.(staging := m'.vol.staging)
    requires m'.pendings <= m.pendings && m'.installs <= m.installs && m'.commands <= m.commands
    requires SubMap(m.settled, m'.settled) && (m.lockSettled ==> m'.lockSettled)
    ensures AllGood(m', rel)
  {
    forall d | Survives(m', d) ensures Good(d, rel) {
      assert Survives(m, d);
    }
  }

  lemma HarmlessStep(m: Media, op: Op, rel: Catalogue)
    requires AllGood(m, rel) && Harmless(op)
    ensures AllGood(MediaApply(m, op), rel)
  {
    FewerSurvivors(m, MediaApply(m, op), rel);
  }

  lemma {:induction false} HarmlessWithstands(m: Media, ops: seq<Op>, rel: Catalogue)
    requires AllGood(m, rel) && forall op <- ops :: Harmless(op)
    ensures Withstands(m, ops, rel) && AllGood(MediaApplyAll(m, ops), rel)
    decreases |ops|
  {
    if ops != [] {
      assert Harmless(ops[0]);
      HarmlessStep(m, ops[0], rel);
      HarmlessWithstands(MediaApply(m, ops[0]), ops[1..], rel);
    }
  }

  /** Local operations put only the staging area on the medium. */
  lemma {:induction false} LocalLeaves(m: Media, ops: seq<Op>)
    requires forall op <- ops :: Local(op)
    ensures MediaApplyAll(m, ops) == m.(vol := ApplyAll(m.vol, ops))
    ensures ApplyAll(m.vol, ops) == m.vol.(staging := ApplyAll(m.vol, ops).staging)
    decreases |ops|
  {
    if ops != [] {
      assert Local(ops[0]);
      LocalLeaves(MediaApply(m, ops[0]), ops[1..]);
    }
  }

  /** One change and what is harmless after it withstand everything exactly if the change does. */
  lemma ChangeExactly(m: Media, op: Op, rest: seq<Op>, rel: Catalogue)
    requires AllGood(m, rel) && forall q <- rest :: Harmless(q)
    ensures Withstands(m, [op] + rest, rel) <==> AllGood(MediaApply(m, op), rel)
    ensures MediaApplyAll(m, [op] + rest) == MediaApplyAll(MediaApply(m, op), rest)
    ensures AllGood(MediaApply(m, op), rel) ==> AllGood(MediaApplyAll(MediaApply(m, op), rest), rel)
  {
    assert ([op] + rest)[1..] == rest;
    if AllGood(MediaApply(m, op), rel) {
      HarmlessWithstands(MediaApply(m, op), rest, rel);
    }
  }

  lemma MediaTwo(m: Media, a: Op, b: Op)
    ensures MediaApplyAll(m, [a, b]) == MediaApply(MediaApply(m, a), b)
  {
    assert [a, b][1..] == [b] && [b][1..] == [];
    assert MediaApplyAll(MediaApply(m, a), [b]) == MediaApply(MediaApply(m, a), b);
  }

  lemma {:induction false} DropAllLocal(staging: seq<Staged>)
    ensures forall op <- DropAllOps(staging) :: Local(op)
  {
    if staging != [] {
      DropAllLocal(staging[1..]);
    }
  }

  /** Synchronising the three directories makes everything visible durable. */
  function Synced(m: Media): Media {
    Durable(m.vol)
  }

  lemma SyncParentsLeaves(m: Media, rest: seq<Op>)
    requires forall op <- rest :: Local(op)
    ensures MediaApplyAll(m, SyncParentsOps() + rest) == Synced(m.(vol := ApplyAll(m.vol, rest)))
  {
    var ops := SyncParentsOps() + rest;
    var m1 := MediaApply(m, SyncRoot);
    var m2 := MediaApply(m1, SyncVersions);
    assert ops[1..] == [SyncVersions] + ([SyncCommand] + rest);
    assert ([SyncVersions] + ([SyncCommand] + rest))[1..] == [SyncCommand] + rest;
    assert ([SyncCommand] + rest)[1..] == rest;
    assert MediaApplyAll(m1, [SyncVersions] + ([SyncCommand] + rest)) == MediaApplyAll(m2, [SyncCommand] + rest);
    LocalLeaves(MediaApply(m2, SyncCommand), rest);
  }

  // ---- Staging a version ----

  /** The rename of a verified directory of the same installation; a power cut may keep or lose it. */
  lemma RenameGood(m: Media, tx: Id, content: VersionDir, rel: Catalogue)
    requires AllGood(m, rel) && Insertable(m.vol, content, rel)
    requires m.vol.staging == [Staged(tx, Some(content))]
    ensures var m' := MediaApply(m, RenameStaged(tx, content.version));
            AllGood(m', rel) && m' == m.(vol := WithVersion(m.vol, tx, content))
  {
    StageOne(m.vol.(staging := []), tx, content);
    var m' := m.(vol := WithVersion(m.vol, tx, content));
    forall d | Survives(m', d) ensures Good(d, rel) {
      RenameSurvivor(m, d, tx, content, rel);
    }
  }

  lemma RenameSurvivor(m: Media, d: Disk, tx: Id, content: VersionDir, rel: Catalogue)
    requires AllGood(m, rel) && Insertable(m.vol, content, rel)
    requires Survives(m.(vol := WithVersion(m.vol, tx, content)), d)
    ensures Good(d, rel)
  {
    var v := content.version;
    var without := d.(versions := d.versions - {v});
    assert Survives(m, without);
    if v in d.versions {
      assert d.versions[v] == content;
      assert forall w <- d.versions :: w != v ==> w in without.versions && d.versions[w] == m.vol.versions[w];
      if d.install.Some? {
        assert exists w :: w in without.versions;
      }
    } else {
      assert without.versions == d.versions by {
        Sandwich(without.versions, d.versions);
      }
    }
  }

  /** Staging, verification and rename withstand every power cut and end with the rename durable. */
  lemma StageWithstands(m: Media, tx: Id, content: VersionDir, rel: Catalogue)
    requires AllGood(m, rel) && Insertable(m.vol, content, rel) && m.vol.staging == []
    ensures var after := WithVersion(m.vol, tx, content);
            && Withstands(m, StageOps(tx, content), rel)
            && MediaApplyAll(m, StageOps(tx, content)) == m.(vol := after, settled := after.versions)
            && AllGood(m.(vol := after, settled := after.versions), rel)
  {
    var a, b, c := AttemptOps(tx, content), SettleOps(), RenameOps(tx, content.version);
    AttemptSafe(m.vol, tx, content, rel);
    LocalLeaves(m, a);
    HarmlessWithstands(m, a, rel);
    var m1 := m.(vol := m.vol.(staging := [Staged(tx, Some(content))]));
    VisibleIsGood(m1, rel);
    QuietSafe(m1.vol, b, rel);
    LocalLeaves(m1, b);
    HarmlessWithstands(m1, b, rel);
    RenameGood(m1, tx, content, rel);
    var op, rest := RenameStaged(tx, content.version), [SyncVersions, SyncStaging, Mark(VersionRenamed)];
    assert c == [op] + rest;
    ChangeExactly(m1, op, rest, rel);
    RenameLeaves(m1.(vol := WithVersion(m1.vol, tx, content)));
    WithstandsConcat(m1, b, c, rel);
    WithstandsConcat(m, a, b + c, rel);
  }

  lemma RenameLeaves(m: Media)
    ensures MediaApplyAll(m, [SyncVersions, SyncStaging, Mark(VersionRenamed)]) == m.(settled := m.vol.versions)
  {
    var rest := [SyncStaging, Mark(VersionRenamed)];
    assert [SyncVersions, SyncStaging, Mark(VersionRenamed)][1..] == rest;
    MediaTwo(MediaApply(m, SyncVersions), SyncStaging, Mark(VersionRenamed));
  }

  // ---- The commit ----

  /** install.json names the selected version, or is absent if there is none. */
  predicate Names(install: Option<Install>, selected: Option<Version>) {
    match selected
    case None => install.None?
    case Some(_) => install.Some? && install.value.active == selected
  }

  /**
   What has to be durable before a journal record for `to` is written: the lock file, the target, an
   install.json that names the selector, and the selector itself, unless it may survive as the target.
   */
  predicate CommitReady(m: Media, to: Version) {
    && m.vol.lockFile && m.lockSettled
    && (to in m.vol.versions ==> to in m.settled)
    && (forall i <- m.installs :: Names(i, Pointer(m.vol)))
    && (forall c <- m.commands :: c == m.vol.command || c == Selects(to))
  }

  /** A surviving install.json that names the selector is a full description of it. */
  lemma NamedIsDescribed(m: Media, d: Disk, rel: Catalogue)
    requires AllGood(m, rel) && Survives(m, d) && d.command == m.vol.command && !d.command.Foreign?
    requires Names(d.install, Pointer(m.vol))
    ensures Describes(d, Pointer(m.vol)) && IsRetained(d, Pointer(m.vol))
  {
    assert Good(d, rel);
  }

  /** The record that a commit writes. */
  function Record(m: Media, to: Version, txn: Id): Pending {
    Pending(true, Pointer(m.vol), to, txn)
  }

  lemma RecordSurvivor(m: Media, d: Disk, to: Version, id: Id, txn: Id, rel: Catalogue)
    requires AllGood(m, rel) && ReadyToCommit(m.vol, Pointer(m.vol), to, id, rel) && CommitReady(m, to)
    requires Survives(MediaApply(m, PutPending(Record(m, to, txn))), d)
    ensures Good(d, rel)
  {
    if d.pending in m.pendings {
      assert Survives(m, d);
    } else {
      assert Survives(m, d.(pending := m.vol.pending));
      var before := d.(pending := m.vol.pending, command := m.vol.command);
      assert Survives(m, before);
      NamedIsDescribed(m, before, rel);
      assert to in d.versions;
    }
  }

  /** Unless everything is ready, a disk that is not good may survive next to the new record. */
  lemma UnreadySurvivor(m: Media, to: Version, id: Id, txn: Id, rel: Catalogue) returns (d: Disk)
    requires AllGood(m, rel) && ReadyToCommit(m.vol, Pointer(m.vol), to, id, rel) && !CommitReady(m, to)
    ensures Survives(MediaApply(m, PutPending(Record(m, to, txn))), d) && !Good(d, rel)
  {
    var seen := m.vol.(pending := Some(Record(m, to, txn)));
    if !m.lockSettled {
      d := seen.(lockFile := false);
    } else if to !in m.settled {
      d := seen.(versions := m.settled);
    } else if i :| i in m.installs && !Names(i, Pointer(m.vol)) {
      d := seen.(install := i);
    } else {
      var c :| c in m.commands && c != m.vol.command && c != Selects(to);
      d := seen.(command := c);
    }
  }

  lemma RecordExactly(m: Media, to: Version, id: Id, txn: Id, rel: Catalogue)
    requires AllGood(m, rel) && ReadyToCommit(m.vol, Pointer(m.vol), to, id, rel)
    ensures AllGood(MediaApply(m, PutPending(Record(m, to, txn))), rel) <==> CommitReady(m, to)
  {
    var m' := MediaApply(m, PutPending(Record(m, to, txn)));
    if CommitReady(m, to) {
      forall d | Survives(m', d) ensures Good(d, rel) {
        RecordSurvivor(m, d, to, id, txn, rel);
      }
    } else {
      var d := UnreadySurvivor(m, to, id, txn, rel);
    }
  }

  /** A commit in progress: the record and what it was decided on are durable. */
  ghost predicate Committing(m: Media, record: Pending, rel: Catalogue) {
    && AllGood(m, rel)
    && m.vol.pending == Some(record) && m.pendings == {Some(record)}
    && m.installs == {m.vol.install}
    && m.vol.lockFile && m.lockSettled && !m.vol.command.Foreign?
  }

  lemma RecordLeaves(m: Media, record: Pending)
    ensures MediaApplyAll(m, WritePendingOps(record))
         == m.(vol := m.vol.(pending := Some(record)), pendings := {Some(record)}, installs := {m.vol.install},
               lockSettled := true)
  {
    var rest := [SyncRoot, Mark(PendingWritten)];
    assert WritePendingOps(record)[1..] == rest;
    MediaTwo(MediaApply(m, PutPending(record)), SyncRoot, Mark(PendingWritten));
  }

  lemma SwitchWithstands(m: Media, record: Pending, rel: Catalogue)
    requires Committing(m, record, rel) && Pointer(m.vol) == record.from
    requires forall c <- m.commands :: c == m.vol.command || c == Selects(record.to)
    ensures var m' := m.(vol := m.vol.(command := Selects(record.to)), commands := {Selects(record.to)});
            && Withstands(m, SwitchOps(record.to), rel)
            && MediaApplyAll(m, SwitchOps(record.to)) == m'
            && Committing(m', record, rel)
  {
    var op, rest := PutSelector(record.to), [SyncCommand, Mark(PointerSwitched)];
    var m1 := MediaApply(m, op);
    forall d | Survives(m1, d) ensures Good(d, rel) {
      assert Survives(m, d.(command := m.vol.command));
      assert Good(d.(command := m.vol.command), rel);
    }
    assert SwitchOps(record.to) == [op] + rest;
    MediaTwo(m1, SyncCommand, Mark(PointerSwitched));
    ChangeExactly(m, op, rest, rel);
  }

  /** The document may be written over any that survives next to the executed record. */
  lemma CompletedSurvivor(m: Media, record: Pending, d: Disk, rel: Catalogue)
    requires AllGood(m, rel) && m.vol.pending == Some(record) && m.vol.command == Selects(record.to)
    requires m.commands == {m.vol.command} && record.to in m.vol.versions
    requires Survives(MediaApply(m, PutInstall(Completed(m.vol, record))), d)
    ensures Good(d, rel)
  {
    if d.install in m.installs {
      assert Survives(m, d);
    } else {
      var before := d.(install := m.vol.install);
      assert Survives(m, before) && Good(before, rel);
      assert Survives(m, before.(pending := m.vol.pending)) && Good(before.(pending := m.vol.pending), rel);
      assert d.install == Some(Completed(m.vol, record));
    }
  }

  lemma CompletedEndures(m: Media, record: Pending, rel: Catalogue)
    requires AllGood(m, rel) && m.vol.pending == Some(record) && m.vol.command == Selects(record.to)
    requires m.commands == {m.vol.command}
    ensures record.to in m.vol.versions
    ensures AllGood(MediaApply(m, PutInstall(Completed(m.vol, record))), rel)
  {
    VisibleIsGood(m, rel);
    var m' := MediaApply(m, PutInstall(Completed(m.vol, record)));
    forall d | Survives(m', d) ensures Good(d, rel) {
      CompletedSurvivor(m, record, d, rel);
    }
  }

  /** Once the document is durable the record may be removed, durably or not. */
  lemma DiscardGood(m: Media, rel: Catalogue)
    requires AllGood(m, rel) && m.vol.pending.Some? && m.commands == {m.vol.command}
    requires forall d :: Survives(m, d) && d.pending == m.vol.pending ==> Describes(d, Pointer(d))
    ensures AllGood(MediaApply(m, DropPending), rel)
  {
    var m' := MediaApply(m, DropPending);
    forall d | Survives(m', d) ensures Good(d, rel) {
      if d.pending in m.pendings {
        assert Survives(m, d);
      } else {
        assert Survives(m, d.(pending := m.vol.pending)) && Good(d.(pending := m.vol.pending), rel);
      }
    }
  }

  /** Writing the document of an executed record and removing the record, from any such medium. */
  lemma CompleteWithstands(m: Media, record: Pending, rel: Catalogue)
    requires AllGood(m, rel) && m.vol.pending == Some(record) && m.vol.command == Selects(record.to)
    requires m.commands == {m.vol.command}
    ensures record.to in m.vol.versions
    ensures var state := Completed(m.vol, record);
            var ops := WriteInstallOps(state) + [Mark(InstallWritten)] + RemovePendingOps();
            Withstands(m, ops, rel) && AllGood(MediaApplyAll(m, ops), rel)
  {
    CompletedEndures(m, record, rel);
    var state := Completed(m.vol, record);
    var a, b := WriteInstallOps(state) + [Mark(InstallWritten)], RemovePendingOps();
    var m1 := MediaApply(m, PutInstall(state));
    assert a == [PutInstall(state)] + [SyncRoot, Mark(InstallWritten)];
    ChangeExactly(m, PutInstall(state), [SyncRoot, Mark(InstallWritten)], rel);
    MediaTwo(m1, SyncRoot, Mark(InstallWritten));
    var m2 := MediaApplyAll(m, a);
    DiscardGood(m2, rel);
    assert b == [DropPending] + [Mark(PendingRemoved)];
    ChangeExactly(m2, DropPending, [Mark(PendingRemoved)], rel);
    WithstandsConcat(m, a, b, rel);
  }

  lemma CommitExactly(m: Media, to: Version, id: Id, txn: Id, rel: Catalogue)
    requires AllGood(m, rel) && ReadyToCommit(m.vol, Pointer(m.vol), to, id, rel)
    ensures var ops := CommitOps(Pointer(m.vol), to, id, txn);
            && (Withstands(m, ops, rel) <==> CommitReady(m, to))
            && (CommitReady(m, to) ==> AllGood(MediaApplyAll(m, ops), rel))
  {
    var record := Record(m, to, txn);
    var state := Install(true, Some(to), Pointer(m.vol), id);
    var a, b := WritePendingOps(record), SwitchOps(to);
    var c := WriteInstallOps(state) + [Mark(InstallWritten)] + RemovePendingOps();
    var rest := [SyncRoot, Mark(PendingWritten)];
    assert a == [PutPending(record)] + rest;
    ChangeExactly(m, PutPending(record), rest, rel);
    RecordExactly(m, to, id, txn, rel);
    WithstandsConcat(m, a, b + c, rel);
    if CommitReady(m, to) {
      RecordLeaves(m, record);
      var m1 := MediaApplyAll(m, a);
      SwitchWithstands(m1, record, rel);
      var m2 := MediaApplyAll(m1, b);
      CompleteWithstands(m2, record, rel);
      WithstandsConcat(m1, b, c, rel);
    }
  }

  /** The end of an activation: its transaction is removed before the directories are synchronised. */
  lemma FinishLeaves(m: Media, tx: Option<Id>, rel: Catalogue)
    requires AllGood(m, rel)
    ensures Withstands(m, FinishOps(tx), rel)
    ensures MediaApplyAll(m, FinishOps(tx)) == Synced(m.(vol := Finished(m.vol, tx)))
    ensures AllGood(MediaApplyAll(m, FinishOps(tx)), rel)
  {
    var head := if tx.Some? then [DropStaged(tx.value), SyncStaging] else [];
    var rest := SyncParentsOps() + [Mark(ParentsSynced)];
    var m1 := m.(vol := Finished(m.vol, tx));
    SyncParentsLeaves(m1, [Mark(ParentsSynced)]);
    QuietMark(m1.vol, ParentsSynced);
    if tx.Some? {
      MediaTwo(m, head[0], head[1]);
    }
    HarmlessWithstands(m, head, rel);
    HarmlessWithstands(m1, rest, rel);
    WithstandsConcat(m, head, rest, rel);
    assert FinishOps(tx) == head + rest;
  }

  lemma QuietMark(d: Disk, point: FaultPoint)
    ensures ApplyAll(d, [Mark(point)]) == d
  {
    assert [Mark(point)][1..] == [];
  }

  /** An activation withstands power cuts everywhere exactly when its commit finds everything ready. */
  lemma ActivateExactly(m: Media, to: Version, id: Id, txn: Id, tx: Option<Id>, rel: Catalogue)
    requires AllGood(m, rel) && ReadyToCommit(m.vol, Pointer(m.vol), to, id, rel)
    ensures var ops := ActivateOps(Pointer(m.vol), to, id, txn, tx);
            && (Withstands(m, ops, rel) <==> CommitReady(m, to))
            && (CommitReady(m, to) ==>
                  AllGood(MediaApplyAll(m, ops), rel) && MediaApplyAll(m, ops) == Durable(MediaApplyAll(m, ops).vol))
  {
    var head, commit, tail := [Mark(SelfTested)], CommitOps(Pointer(m.vol), to, id, txn), FinishOps(tx);
    HarmlessWithstands(m, head, rel);
    assert MediaApplyAll(m, head) == m by { assert head[1..] == []; }
    CommitExactly(m, to, id, txn, rel);
    WithstandsConcat(m, head, commit, rel);
    WithstandsConcat(m, head + commit, tail, rel);
    if CommitReady(m, to) {
      FinishLeaves(MediaApplyAll(m, commit), tx, rel);
    }
  }

  // ---- Recovery ----

  /** The tail of a recovery that acted on a journal makes everything visible durable. */
  lemma TailLeaves(m: Media, staging: seq<Staged>, rel: Catalogue)
    requires AllGood(m, rel)
    ensures var ops := SyncParentsOps() + [Mark(ParentsSynced)] + (DropAllOps(staging) + [SyncStaging]);
            && Withstands(m, ops, rel) && AllGood(MediaApplyAll(m, ops), rel)
            && MediaApplyAll(m, ops) == Durable(MediaApplyAll(m, ops).vol)
  {
    DropAllLocal(staging);
    var rest := [Mark(ParentsSynced)] + (DropAllOps(staging) + [SyncStaging]);
    var ops := SyncParentsOps() + [Mark(ParentsSynced)] + (DropAllOps(staging) + [SyncStaging]);
    assert ops == SyncParentsOps() + rest;
    HarmlessWithstands(m, ops, rel);
    SyncParentsLeaves(m, rest);
  }

  /** A journal record is judged by the selector, so the selector has to be durable. */
  predicate RecoverReady(m: Media) {
    m.vol.pending.Some? ==> m.commands == {m.vol.command}
  }

  /** Another selector that survives makes the outcome of the judgement wrong. */
  lemma WrongSelector(m: Media, c: Command, rel: Catalogue)
    requires AllGood(m, rel) && m.vol.pending.Some? && c in m.commands && c != m.vol.command
    ensures !Withstands(m, RecoverLocked(m.vol).ops, rel)
  {
    VisibleIsGood(m, rel);
    assert Survives(m, m.vol.(command := c)) && Good(m.vol.(command := c), rel);
    if Pointer(m.vol) == Some(m.vol.pending.value.to) {
      WrongCompletion(m, c, rel);
    } else {
      var m' := MediaApply(m, DropPending);
      assert Survives(m', m'.vol.(command := c)) && !Good(m'.vol.(command := c), rel);
      assert RecoverLocked(m.vol).ops[0] == DropPending;
    }
  }

  /** The completed document is durable and the selector it names is not. */
  lemma WrongCompletion(m: Media, c: Command, rel: Catalogue)
    requires AllGood(m, rel) && Good(m.vol, rel) && m.vol.pending.Some? && c in m.commands && c != m.vol.command
    requires Pointer(m.vol) == Some(m.vol.pending.value.to)
    ensures !Withstands(m, RecoverLocked(m.vol).ops, rel)
  {
    var record := m.vol.pending.value;
    var ops := RecoverLocked(m.vol).ops;
    var first := WriteInstallOps(Completed(m.vol, record));
    var m' := MediaApply(MediaApply(m, first[0]), first[1]);
    MediaTwo(m, first[0], first[1]);
    assert Survives(m', m'.vol.(command := c)) && !Good(m'.vol.(command := c), rel);
    assert ops == first + ops[2..];
    WithstandsConcat(m, first, ops[2..], rel);
  }

  /**
   Recovery of any medium withstands a power cut at every point exactly when the selector's directory
   has been synchronised, or there is no journal record.  It synchronises the root, and so makes the
   removal of the record durable, before the selector's directory.
   */
  lemma RecoveryExactly(m: Media, rel: Catalogue)
    requires AllGood(m, rel)
    ensures Withstands(m, RecoverLocked(m.vol).ops, rel) <==> RecoverReady(m)
  {
    if !RecoverReady(m) {
      var c :| c in m.commands && c != m.vol.command;
      WrongSelector(m, c, rel);
    } else {
      RecoverWithstands(m, rel);
    }
  }

  lemma RecoverWithstands(m: Media, rel: Catalogue)
    requires AllGood(m, rel) && RecoverReady(m)
    ensures var m' := MediaApplyAll(m, RecoverLocked(m.vol).ops);
            && Withstands(m, RecoverLocked(m.vol).ops, rel) && AllGood(m', rel)
            && (m.vol.pending.Some? ==> m' == Durable(m'.vol))
            && (m.vol.pending.None? ==> m' == m.(vol := m.vol.(staging := m'.vol.staging)))
  {
    VisibleIsGood(m, rel);
    var ops := RecoverLocked(m.vol).ops;
    if m.vol.pending.Some? {
      var head := JournalHead(m.vol, m.vol.pending.value);
      JournalWithstands(m, rel);
      var tail := SyncParentsOps() + [Mark(ParentsSynced)] + CleanupOps(m.vol);
      TailLeaves(MediaApplyAll(m, head), m.vol.staging, rel);
      WithstandsConcat(m, head, tail, rel);
    } else {
      DropAllLocal(m.vol.staging);
      HarmlessWithstands(m, ops, rel);
      LocalLeaves(m, ops);
    }
  }

  /** Acting on the record: completing the document, or nothing, and removing it. */
  function JournalHead(d: Disk, record: Pending): seq<Op>
    requires Pointer(d) == Some(record.to) ==> record.to in d.versions
  {
    (if Pointer(d) == Some(record.to) then WriteInstallOps(Completed(d, record)) + [Mark(InstallWritten)] else [])
    + RemovePendingOps()
  }

  lemma JournalWithstands(m: Media, rel: Catalogue)
    requires AllGood(m, rel) && Good(m.vol, rel) && m.vol.pending.Some? && m.commands == {m.vol.command}
    ensures var head := JournalHead(m.vol, m.vol.pending.value);
            && RecoverLocked(m.vol).ops == head + (SyncParentsOps() + [Mark(ParentsSynced)] + CleanupOps(m.vol))
            && Withstands(m, head, rel) && AllGood(MediaApplyAll(m, head), rel)
  {
    var record := m.vol.pending.value;
    if Pointer(m.vol) == Some(record.to) {
      CompleteWithstands(m, record, rel);
    } else {
      forall d | Survives(m, d) && d.pending == m.vol.pending ensures Describes(d, Pointer(d)) {
        assert Good(d, rel);
      }
      DiscardGood(m, rel);
      ChangeExactly(m, DropPending, [Mark(PendingRemoved)], rel);
      assert JournalHead(m.vol, record) == [DropPending] + [Mark(PendingRemoved)];
    }
  }
}
