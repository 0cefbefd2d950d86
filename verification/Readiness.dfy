/**
 Whole operations on a medium: an operation withstands power cuts everywhere exactly when what its
 journal record relies on is durable before it starts, and a medium is settled exactly when that is so
 for whatever operation comes next.
 */
module Readiness {
  import opened Results
  import opened ManagedState
  import opened Plans
  import opened Consistency
  import opened PlanSafety
  import opened Contention
  import opened Durability

  /** How the installation of a download begins: sweeping the staging area and filling it anew. */
  function Beginning(d: Disk, request: Download, id: Id): Outcome<()> {
    var stage :=
      if request.version in d.versions then Outcome([], Ok(()))
      else Stage(request.tx, Content(request, id), request.version, id);
    Outcome(CleanupOps(d) + stage.ops, stage.result)
  }

  /** The medium from which a download is committed: a version that had to be staged is durable. */
  function StagedMedia(m: Media, request: Download, id: Id): Media {
    var vol := Staging(m.vol, request, id);
    m.(vol := vol, settled := if request.version in m.vol.versions then m.settled else vol.versions)
  }

  lemma BeginningWithstands(m: Media, request: Download, id: Id, rel: Catalogue)
    requires AllGood(m, rel) && Fetched(request, rel) && SameInstallation(m.vol, id)
    ensures var o := Beginning(m.vol, request, id);
            var m' := MediaApplyAll(m, o.ops);
            && Withstands(m, o.ops, rel) && AllGood(m', rel)
            && (o.result.Ok? ==> Stageable(m.vol, request, id) && m' == StagedMedia(m, request, id))
            && (o.result.Err? ==> m' == m.(vol := m.vol.(staging := m'.vol.staging)))
  {
    var cleanup, o := CleanupOps(m.vol), Beginning(m.vol, request, id);
    var content := Content(request, id);
    VisibleIsGood(m, rel);
    SweepWithstands(m, rel);
    VerifiedIsReleased(request, id, rel);
    var clean := m.(vol := m.vol.(staging := []));
    if request.version in m.vol.versions {
      assert cleanup + [] == cleanup;
    } else if VerifiedStaged(content, request.version, id) {
      VisibleIsGood(clean, rel);
      StageWithstands(clean, request.tx, content, rel);
      WithstandsConcat(m, cleanup, StageOps(request.tx, content), rel);
    } else {
      var attempt := AttemptOps(request.tx, content);
      LocalLeaves(clean, attempt);
      HarmlessWithstands(clean, attempt, rel);
      WithstandsConcat(m, cleanup, attempt, rel);
    }
  }

  lemma SweepWithstands(m: Media, rel: Catalogue)
    requires AllGood(m, rel)
    ensures var clean := m.(vol := m.vol.(staging := []));
            && Withstands(m, CleanupOps(m.vol), rel) && MediaApplyAll(m, CleanupOps(m.vol)) == clean
            && AllGood(clean, rel)
  {
    VisibleIsGood(m, rel);
    DropAllLocal(m.vol.staging);
    HarmlessWithstands(m, CleanupOps(m.vol), rel);
    LocalLeaves(m, CleanupOps(m.vol));
    CleanupSafe(m.vol, rel);
  }

  /** The version that an operation would select, if it gets as far as writing a journal record. */
  ghost function Target(d: Disk, request: Request): Option<Version> {
    match request
    case Recovering => None
    case Downloading(download) =>
      var o := ActivateDownloadLocked(d, download);
      if o.result.Ok? && o.result.value.changed then Some(download.version) else None
    case Rolling(retained) =>
      if ActivateExistingLocked(d, retained).result.Ok? then Some(retained.target) else None
  }

  /** What has to be durable before an operation starts. */
  ghost predicate Ready(m: Media, request: Request) {
    && (request.Recovering? ==> RecoverReady(m))
    && (Target(m.vol, request).Some? ==> CommitReady(m, Target(m.vol, request).value))
  }

  /** A completed operation leaves everything durable, or nothing more at risk than it found. */
  predicate Ends(m: Media, m': Media) {
    || (m' == Durable(m'.vol) && m'.vol.lockFile)
    || (&& m' == m.(vol := m'.vol, settled := m'.settled)
        && m'.vol == m.vol.(versions := m'.vol.versions, staging := m'.vol.staging)
        && (m'.settled == m'.vol.versions || (m'.settled == m.settled && m'.vol.versions == m.vol.versions)))
  }

  lemma FreshExactly(m: Media, request: Download, id: Id, rel: Catalogue)
    requires AllGood(m, rel) && m.vol.lockFile && Fetched(request, rel) && !m.vol.command.Foreign?
    requires SameInstallation(m.vol, id)
    requires Pointer(m.vol).Some? && m.vol.install.Some? ==> Pointer(m.vol).value < request.version
    ensures var o := ActivateFresh(m.vol, request, id);
            && (Withstands(m, o.ops, rel) <==> (o.result.Ok? ==> CommitReady(m, request.version)))
            && (o.result.Ok? ==> o.result.value.changed)
            && (Withstands(m, o.ops, rel) ==>
                  AllGood(MediaApplyAll(m, o.ops), rel) && Ends(m, MediaApplyAll(m, o.ops)))
  {
    VisibleIsGood(m, rel);
    var o := ActivateFresh(m.vol, request, id);
    SweepWithstands(m, rel);
    if o.ops != CleanupOps(m.vol) {
      BeginningWithstands(m, request, id, rel);
      if o.result.Ok? {
        FreshCommit(m, request, id, rel);
      } else {
        assert o.ops == Beginning(m.vol, request, id).ops;
      }
    }
  }

  /** Staging settles the target and nothing else. */
  lemma StagedIsReady(m: Media, request: Download, id: Id, rel: Catalogue)
    requires AllGood(m, rel) && Good(m.vol, rel) && m.vol.lockFile && Fetched(request, rel)
    requires SameInstallation(m.vol, id) && !m.vol.command.Foreign? && CommandOwned(m.vol)
    requires Pointer(m.vol).Some? && m.vol.install.Some? ==> Pointer(m.vol).value < request.version
    requires Good(StagedMedia(m, request, id).vol, rel)
    ensures var m1 := StagedMedia(m, request, id);
            && ReadyToCommit(m1.vol, Pointer(m.vol), request.version, id, rel)
            && (CommitReady(m1, request.version) <==> CommitReady(m, request.version))
  {
  }

  lemma FreshCommit(m: Media, request: Download, id: Id, rel: Catalogue)
    requires AllGood(m, rel) && Good(m.vol, rel) && m.vol.lockFile && Fetched(request, rel)
    requires SameInstallation(m.vol, id) && !m.vol.command.Foreign?
    requires ActivateFresh(m.vol, request, id).result.Ok?
    requires Pointer(m.vol).Some? && m.vol.install.Some? ==> Pointer(m.vol).value < request.version
    ensures var ops := ActivateFresh(m.vol, request, id).ops;
            && (Withstands(m, ops, rel) <==> CommitReady(m, request.version))
            && (Withstands(m, ops, rel) ==> AllGood(MediaApplyAll(m, ops), rel) && Ends(m, MediaApplyAll(m, ops)))
  {
    var begin, rest := Beginning(m.vol, request, id).ops, CommittingOps(m.vol, request, id);
    var m1 := StagedMedia(m, request, id);
    BeginningWithstands(m, request, id, rel);
    VisibleIsGood(m1, rel);
    StagedIsReady(m, request, id, rel);
    if request.version in m.vol.versions {
      ActivateExactly(m1, request.version, id, request.txn, None, rel);
    } else {
      ActivateExactly(m1, request.version, id, request.tx, Some(request.tx), rel);
    }
    assert ActivateFresh(m.vol, request, id).ops == begin + rest;
    WithstandsConcat(m, begin, rest, rel);
    MediaFollowsDisk(m1, rest);
    LockStays(m1.vol, rest);
  }

  lemma {:induction false} LockStays(d: Disk, ops: seq<Op>)
    ensures ApplyAll(d, ops).lockFile == d.lockFile && ApplyAll(d, ops).root == d.root
    decreases |ops|
  {
    if ops != [] {
      LockStays(Apply(d, ops[0]), ops[1..]);
    }
  }

  lemma DownloadExactly(m: Media, request: Download, rel: Catalogue)
    requires AllGood(m, rel) && m.vol.lockFile && Fetched(request, rel)
    ensures var ops := ActivateDownloadLocked(m.vol, request).ops;
            && (Withstands(m, ops, rel) <==> Ready(m, Downloading(request)))
            && (Withstands(m, ops, rel) ==> AllGood(MediaApplyAll(m, ops), rel) && Ends(m, MediaApplyAll(m, ops)))
  {
    var d := m.vol;
    VisibleIsGood(m, rel);
    if !d.command.Foreign? && !(d.install.Some? && d.command.Selects? && request.version <= d.command.version) {
      ChooseIdSound(d, request.version, request.freshId, rel);
      FreshExactly(m, request, ChooseId(d, request.version, request.freshId).value, rel);
    } else {
      HarmlessWithstands(m, [], rel);
    }
  }

  lemma RetainedExactly(m: Media, request: Retained, rel: Catalogue)
    requires AllGood(m, rel)
    ensures var ops := ActivateExistingLocked(m.vol, request).ops;
            && (Withstands(m, ops, rel) <==> Ready(m, Rolling(request)))
            && (Withstands(m, ops, rel) ==> AllGood(MediaApplyAll(m, ops), rel) && Ends(m, MediaApplyAll(m, ops)))
  {
    var d := m.vol;
    VisibleIsGood(m, rel);
    var o := ActivateExistingLocked(d, request);
    if o.result.Ok? {
      var head := [Mark(Verified)];
      var ops := ActivateOps(Pointer(d), request.target, d.install.value.id, request.txn, None);
      HarmlessWithstands(m, head, rel);
      assert MediaApplyAll(m, head) == m by { assert head[1..] == []; }
      ActivateExactly(m, request.target, d.install.value.id, request.txn, None, rel);
      WithstandsConcat(m, head, ops, rel);
      MediaFollowsDisk(m, ops);
      LockStays(d, ops);
    } else {
      HarmlessWithstands(m, o.ops, rel);
      LocalLeaves(m, o.ops);
    }
  }

  /**
   From any medium, an operation withstands a power cut at every point exactly when what its journal
   record relies on is durable before it starts.
   */
  lemma PlanExactly(m: Media, request: Request, rel: Catalogue)
    requires AllGood(m, rel) && m.vol.lockFile && (request.Downloading? ==> Fetched(request.download, rel))
    ensures var ops := PlanOf(m.vol, request);
            && (Withstands(m, ops, rel) <==> Ready(m, request))
            && (Withstands(m, ops, rel) ==> AllGood(MediaApplyAll(m, ops), rel) && Ends(m, MediaApplyAll(m, ops)))
  {
    match request
    case Recovering =>
      RecoveryExactly(m, rel);
      if RecoverReady(m) {
        RecoverWithstands(m, rel);
        MediaFollowsDisk(m, RecoverLocked(m.vol).ops);
        LockStays(m.vol, RecoverLocked(m.vol).ops);
      }
    case Downloading(download) => DownloadExactly(m, download, rel);
    case Rolling(retained) => RetainedExactly(m, retained, rel);
  }

  // ---- Settled media ----

  /**
   The selector is durable, and if install.json names it, then so are that name, every retained version
   and the lock file.  Nothing is said about journal records, staged files or the rest of install.json.
   */
  predicate Settled(m: Media) {
    || m.vol.command.Foreign?
    || (&& m.vol.lockFile && m.lockSettled
        && m.commands == {m.vol.command}
        && (Names(m.vol.install, Pointer(m.vol)) ==>
              m.settled == m.vol.versions && forall i <- m.installs :: Names(i, Pointer(m.vol))))
  }

  /** Every operation that may be requested next finds what it relies on durable. */
  ghost predicate AlwaysReady(m: Media, rel: Catalogue) {
    forall request: Request :: (request.Downloading? ==> Fetched(request.download, rel)) ==> Ready(m, request)
  }

  /** The installation of a version above the selected one, with nothing going wrong. */
  function Plain(v: Version, rel: Catalogue): Download {
    Download(v, rel(v), 0, 0, 0, AsReleased, true)
  }

  lemma PlainCommits(d: Disk, v: Version, rel: Catalogue)
    requires Good(d, rel) && d.root && d.lockFile && !d.command.Foreign? && Names(d.install, Pointer(d))
    requires d.command.Selects? ==> d.command.version < v
    ensures Target(d, Downloading(Plain(v, rel))) == Some(v)
  {
    var request := Plain(v, rel);
    ChooseIdSound(d, v, 0, rel);
    ActivateFreshSafe(d, request, ChooseId(d, v, 0).value, rel);
  }

  lemma RollbackCommits(d: Disk, v: Version, rel: Catalogue)
    requires Good(d, rel) && d.command.Selects? && Names(d.install, Pointer(d))
    requires v in d.versions && v < d.command.version
    ensures Target(d, Rolling(Retained(v, 0, true))) == Some(v)
  {
  }

  /** Only a selector that install.json names is ever replaced. */
  lemma OnlyNamedCommits(d: Disk, request: Request, rel: Catalogue)
    requires Good(d, rel) && Target(d, request).Some?
    ensures !d.command.Foreign? && Names(d.install, Pointer(d))
  {
  }

  /** The ready installations of two versions leave the selector no choice. */
  lemma SelectorSettled(m: Media, a: Version, b: Version)
    requires m.vol.command in m.commands && CommitReady(m, a) && CommitReady(m, b) && a != b
    ensures m.commands == {m.vol.command}
  {
    assert forall c <- m.commands :: c == m.vol.command;
  }

  lemma ReadyRequest(m: Media, request: Request, v: Version, rel: Catalogue)
    requires AlwaysReady(m, rel) && (request.Downloading? ==> Fetched(request.download, rel))
    requires Target(m.vol, request) == Some(v)
    ensures CommitReady(m, v)
  {
    assert Ready(m, request);
  }

  lemma VersionSettled(m: Media, v: Version, rel: Catalogue)
    requires AllGood(m, rel) && AlwaysReady(m, rel) && m.vol.lockFile
    requires !m.vol.command.Foreign? && Names(m.vol.install, Pointer(m.vol)) && v in m.vol.versions
    ensures v in m.settled
  {
    var d := m.vol;
    VisibleIsGood(m, rel);
    if d.command == Selects(v) {
      assert Survives(m, d.(versions := m.settled)) && Good(d.(versions := m.settled), rel);
    } else if d.command.Selects? && v < d.command.version {
      RollbackCommits(d, v, rel);
      ReadyRequest(m, Rolling(Retained(v, 0, true)), v, rel);
    } else {
      PlainCommits(d, v, rel);
      ReadyRequest(m, Downloading(Plain(v, rel)), v, rel);
    }
  }

  lemma NamedIsSettled(m: Media, rel: Catalogue)
    requires AllGood(m, rel) && AlwaysReady(m, rel) && m.vol.lockFile
    requires !m.vol.command.Foreign? && Names(m.vol.install, Pointer(m.vol))
    ensures Settled(m)
  {
    VisibleIsGood(m, rel);
    var next := if m.vol.command.Selects? then m.vol.command.version + 1 else 0;
    PlainCommits(m.vol, next, rel);
    PlainCommits(m.vol, next + 1, rel);
    ReadyRequest(m, Downloading(Plain(next, rel)), next, rel);
    ReadyRequest(m, Downloading(Plain(next + 1, rel)), next + 1, rel);
    SelectorSettled(m, next, next + 1);
    forall v | v in m.vol.versions ensures v in m.settled {
      VersionSettled(m, v, rel);
    }
    Sandwich(m.settled, m.vol.versions);
  }

  /** A record may only be visible once the lock file is durable. */
  lemma RecordNeedsLock(m: Media, rel: Catalogue)
    requires AllGood(m, rel) && m.vol.pending.Some?
    ensures m.vol.lockFile && m.lockSettled
  {
    VisibleIsGood(m, rel);
    assert m.lockSettled || Survives(m, m.vol.(lockFile := false));
  }

  /** A medium is settled exactly if every operation that may follow withstands power cuts. */
  lemma SettledExactly(m: Media, rel: Catalogue)
    requires AllGood(m, rel) && m.vol.lockFile
    ensures Settled(m) <==> AlwaysReady(m, rel)
  {
    VisibleIsGood(m, rel);
    if Settled(m) {
      forall request: Request | request.Downloading? ==> Fetched(request.download, rel) ensures Ready(m, request) {
        if Target(m.vol, request).Some? {
          OnlyNamedCommits(m.vol, request, rel);
        }
      }
    }
    if AlwaysReady(m, rel) && !m.vol.command.Foreign? {
      if Names(m.vol.install, Pointer(m.vol)) {
        NamedIsSettled(m, rel);
      } else {
        assert Ready(m, Recovering);
        RecordNeedsLock(m, rel);
      }
    }
  }

  lemma DurableIsSettled(d: Disk, rel: Catalogue)
    requires Good(d, rel) && d.root
    ensures AllGood(Durable(d), rel)
    ensures d.lockFile || d.command.Foreign? ==> Settled(Durable(d))
  {
    forall x | Survives(Durable(d), x) ensures Good(x, rel) {
      VersionsKept(Durable(d), x);
      assert x == d.(staging := x.staging);
    }
  }

  /** What a process that dies only where no rename waits for its directory leaves behind. */
  predicate Calm(m: Media) {
    && m.installs == {m.vol.install}
    && m.commands == {m.vol.command}
    && m.settled == m.vol.versions
  }

  lemma CalmIsSettled(m: Media, rel: Catalogue)
    requires AllGood(m, rel) && m.vol.lockFile && m.lockSettled && Calm(m)
    ensures Settled(m)
  {
  }

  /** A completed operation leaves a settled medium settled. */
  lemma EndsSettled(m: Media, m': Media, rel: Catalogue)
    requires AllGood(m, rel) && AllGood(m', rel) && Settled(m) && Ends(m, m')
    ensures Settled(m')
  {
    VisibleIsGood(m, rel);
    VisibleIsGood(m', rel);
    if m' == Durable(m'.vol) && m'.vol.lockFile {
      DurableIsSettled(m'.vol, rel);
    }
  }
}
