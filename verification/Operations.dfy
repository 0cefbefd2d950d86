/**
 The public operations run to completion by one process: recovery, unlocked checks, then the locked
 activation.  Convergence after any history of crashes, and what a rollback forbids next.
 */
module Operations {
  import opened Results
  import opened ManagedState
  import opened Plans
  import opened Consistency
  import opened PlanSafety
  import opened Contention
  import opened RecoveryLaws
  import opened VersionOrder

  datatype Ended = Ended(disk: Disk, result: Res<ActivationResult>)

  /** Creating the private root and the lock file, then taking the lock. */
  function LockedDisk(d: Disk): Disk {
    d.(root := true, lockFile := true)
  }

  function Finish(d: Disk, o: Outcome<ActivationResult>): Ended {
    Ended(ApplyAll(LockedDisk(d), [Mark(LockAcquired)] + o.ops), o.result)
  }

  ghost function ActivateDownload(d: Disk, request: Download): Ended {
    var recovered := RecoverIfManaged(d);
    var d1 := ApplyAll(d, recovered.ops);
    if recovered.result.Err? then Ended(d1, Err(recovered.result.error))
    else if !d1.command.NoCommand? && d1.install.None? then Ended(d1, Err(Invalid))
    else Finish(d1, ActivateDownloadLocked(LockedDisk(d1), request))
  }

  ghost function InstallVersion(d: Disk, request: Download): Ended {
    var recovered := RecoverIfManaged(d);
    var d1 := ApplyAll(d, recovered.ops);
    if recovered.result.Err? then Ended(d1, Err(recovered.result.error))
    else ActivateDownload(d1, request)
  }

  function RequireManagedCurrent(d: Disk): Res<Version> {
    if d.command.Foreign? then Err(Invalid)
    else if d.command.NoCommand? || d.install.None? then Err(Unmanaged)
    else
      var current := d.command.version;
      var state := d.install.value;
      if !ValidInstall(state) || state.active != Some(current)
         || !VerifiedVersion(d, current, Some(state.id)) || !CommandOwned(d)
      then Err(Invalid)
      else Ok(current)
  }

  ghost function Update(d: Disk, latest: Download): Ended {
    var recovered := RecoverIfManaged(d);
    var d1 := ApplyAll(d, recovered.ops);
    if recovered.result.Err? then Ended(d1, Err(recovered.result.error))
    else
      match RequireManagedCurrent(d1)
      case Err(error) => Ended(d1, Err(error))
      case Ok(current) =>
        if latest.version < current then Ended(d1, Err(Downgrade(current, latest.version)))
        else if latest.version == current then Ended(d1, Ok(ActivationResult(current, false)))
        else ActivateDownload(d1, latest)
  }

  function ActivateExisting(d: Disk, request: Retained): Ended {
    Finish(d, ActivateExistingLocked(LockedDisk(d), request))
  }

  function RollbackTo(d: Disk, request: Retained): Ended {
    var recovered := RecoverIfManaged(d);
    var d1 := ApplyAll(d, recovered.ops);
    if recovered.result.Err? then Ended(d1, Err(recovered.result.error))
    else
      match RequireManagedCurrent(d1)
      case Err(error) => Ended(d1, Err(error))
      case Ok(current) =>
        if request.target >= current then Ended(d1, Err(Invalid)) else ActivateExisting(d1, request)
  }

  /** Rolling back to install.json's `previous`; the randomness and self-test verdict are inputs. */
  function Rollback(d: Disk, txn: Id, selfTest: bool): Ended {
    var recovered := RecoverIfManaged(d);
    var d1 := ApplyAll(d, recovered.ops);
    if recovered.result.Err? then Ended(d1, Err(recovered.result.error))
    else
      match RequireManagedCurrent(d1)
      case Err(error) => Ended(d1, Err(error))
      case Ok(current) =>
        match d1.install.value.previous
        case None => Ended(d1, Err(Invalid))
        case Some(target) =>
          if target >= current then Ended(d1, Err(Invalid))
          else ActivateExisting(d1, Retained(target, txn, selfTest))
  }

  /** A completed recovery of a good disk: described, unjournalled and, if selected, swept. */
  ghost predicate Reconciled(d: Disk, rel: Catalogue) {
    && Good(d, rel) && d.pending.None? && (d.command.Selects? ==> d.staging == [])
  }

  lemma RecoverySettles(d: Disk, rel: Catalogue)
    requires Good(d, rel) && !d.command.Foreign?
    ensures var o := RecoverIfManaged(d);
            var d' := ApplyAll(d, o.ops);
            && o.result.Ok? && Reconciled(d', rel)
            && Abs(d') == Abs(d) && d'.command == d.command
  {
    RecoverSafe(d, rel);
    FinalIsComplete(d);
    if LooksManaged(d) {
      ApplyAllConcat(d, [Mark(LockAcquired)], RecoverLocked(d).ops);
    }
  }

  /** Extraction writes the release and the self-test accepts it. */
  predicate Undisturbed(request: Download) {
    request.written.AsReleased? && request.selfTest
  }

  lemma DownloadLands(d: Disk, request: Download, rel: Catalogue)
    requires Reconciled(d, rel) && !d.command.Foreign? && Fetched(request, rel) && Undisturbed(request)
    requires NotBelow(Pointer(d), Some(request.version))
    ensures var e := Finish(d, ActivateDownloadLocked(LockedDisk(d), request));
            && e.result.Ok? && e.result.value.version == request.version
            && Landed(d, e.disk, request, rel)
  {
    var d1 := LockedDisk(d);
    var o := ActivateDownloadLocked(d1, request);
    ApplyAllConcat(d1, [Mark(LockAcquired)], o.ops);
    DownloadSafe(d1, request, rel);
    if !(d1.install.Some? && d1.command.Selects? && request.version <= d1.command.version) {
      ChooseIdSound(d1, request.version, request.freshId, rel);
      ActivateFreshSafe(d1, request, ChooseId(d1, request.version, request.freshId).value, rel);
    }
    PrefixGood(d1, o.ops, |o.ops|, rel);
    assert o.ops[..|o.ops|] == o.ops;
  }

  /** The end of a successful installation of one version. */
  ghost predicate Landed(before: Disk, after: Disk, request: Download, rel: Catalogue) {
    && Good(after, rel)
    && Pointer(after) == Some(request.version)
    && after.install.Some? && after.install.value.active == Some(request.version)
    && after.pending.None? && after.staging == []
    && (request.version in before.versions ==> after.versions == before.versions)
  }

  lemma {:induction false} PrefixGood(d: Disk, ops: seq<Op>, k: nat, rel: Catalogue)
    requires PlanSafe(d, ops, rel) && k <= |ops|
    ensures Good(ApplyAll(d, ops[..k]), rel)
    decreases k
  {
    if k != 0 {
      assert ops[..k][1..] == ops[1..][..k - 1];
      PrefixGood(Apply(d, ops[0]), ops[1..], k - 1, rel);
    }
  }

  /**
   After any finite history of processes that installed, updated, rolled back and died, one
   undisturbed installation of any version not below the selected one succeeds, reusing a version a
   dead attempt left behind.
   */
  lemma InstallConverges(w: World, es: seq<Event>, request: Download, rel: Catalogue)
    requires Fresh(w) && !w.disk.command.Foreign? && Runs(w, es, rel)
    requires After(w, es, rel).holder.None?
    requires Fetched(request, rel) && Undisturbed(request)
    requires NotBelow(Pointer(After(w, es, rel).disk), Some(request.version))
    ensures var d := After(w, es, rel).disk;
            var e := InstallVersion(d, request);
            && e.result.Ok? && e.result.value.version == request.version
            && Landed(d, e.disk, request, rel)
  {
    RunKeeps(w, es, rel);
    NotForeign(w, es, rel);
    var d := After(w, es, rel).disk;
    RecoverySettles(d, rel);
    var d1 := ApplyAll(d, RecoverIfManaged(d).ops);
    RecoverySettles(d1, rel);
    var d2 := ApplyAll(d1, RecoverIfManaged(d1).ops);
    DownloadLands(d2, request, rel);
  }

  lemma {:induction false} NotForeign(w: World, es: seq<Event>, rel: Catalogue)
    requires Runs(w, es, rel) && !w.disk.command.Foreign?
    ensures !After(w, es, rel).disk.command.Foreign?
    decreases |es|
  {
    if es != [] {
      NotForeign(Step(w, es[0], rel), es[1..], rel);
    }
  }

  /** A successful rollback lowers the selected version and cannot be directly followed by another. */
  lemma RollbackOnlyOnce(d: Disk, txn: Id, selfTest: bool, txn': Id, selfTest': bool, rel: Catalogue)
    requires Good(d, rel) && Rollback(d, txn, selfTest).result.Ok?
    ensures var e := Rollback(d, txn, selfTest);
            var again := Rollback(e.disk, txn', selfTest');
            && Good(e.disk, rel)
            && Pointer(d).Some? && Pointer(e.disk).Some? && Pointer(e.disk).value < Pointer(d).value
            && again.result == Err(Invalid) && Pointer(again.disk) == Pointer(e.disk)
  {
    RecoverySettles(d, rel);
    var d1 := ApplyAll(d, RecoverIfManaged(d).ops);
    var request := Retained(d1.install.value.previous.value, txn, selfTest);
    var o := ActivateExistingLocked(LockedDisk(d1), request);
    ApplyAllConcat(LockedDisk(d1), [Mark(LockAcquired)], o.ops);
    RetainedSafe(LockedDisk(d1), request, rel);
    var e := Rollback(d, txn, selfTest).disk;
    PrefixGood(LockedDisk(d1), o.ops, |o.ops|, rel);
    assert o.ops[..|o.ops|] == o.ops;
    RecoverySettles(e, rel);
  }

  /** An update that reports success selects the latest release and never lowers the version. */
  lemma UpdateLands(d: Disk, latest: Download, rel: Catalogue)
    requires Good(d, rel) && Fetched(latest, rel) && Update(d, latest).result.Ok?
    ensures var e := Update(d, latest);
            && Good(e.disk, rel) && e.disk.pending.None? && e.disk.staging == []
            && Pointer(d).Some? && Pointer(d).value <= latest.version
            && Pointer(e.disk) == Some(latest.version)
            && (e.result.value.changed <==> Pointer(d) != Some(latest.version))
            && (e.result.value.changed ==> Abs(e.disk).previous == Pointer(d))
  {
    if d.command.Foreign? {
      RecoverSafe(d, rel);
    }
    RecoverySettles(d, rel);
    var d1 := ApplyAll(d, RecoverIfManaged(d).ops);
    RecoverySettles(d1, rel);
    var d2 := ApplyAll(d1, RecoverIfManaged(d1).ops);
    var d3 := LockedDisk(d2);
    if Pointer(d) != Some(latest.version) {
      ChooseIdSound(d3, latest.version, latest.freshId, rel);
      var id := ChooseId(d3, latest.version, latest.freshId).value;
      ActivateFreshSafe(d3, latest, id, rel);
      var o := ActivateDownloadLocked(d3, latest);
      ApplyAllConcat(d3, [Mark(LockAcquired)], o.ops);
      DownloadSafe(d3, latest, rel);
      PrefixGood(d3, o.ops, |o.ops|, rel);
      assert o.ops[..|o.ops|] == o.ops;
    }
  }

  // ---- Single runs ----

  function Steps(pid: Pid, n: nat): seq<Event> {
    if n == 0 then [] else [Do(pid)] + Steps(pid, n - 1)
  }

  /** An operation whose process dies after `n` of its steps. */
  function Dying(pid: Pid, request: Request, n: nat): seq<Event> {
    [Lock(pid, request)] + (Steps(pid, n) + [Crash(pid)])
  }

  lemma {:induction false} StepsRun(d: Disk, pid: Pid, ops: seq<Op>, n: nat, rel: Catalogue)
    requires n <= |ops|
    ensures var w, es := World(d, Some(pid), ops), Steps(pid, n) + [Crash(pid)];
            Runs(w, es, rel) && After(w, es, rel) == World(ApplyAll(d, ops[..n]), None, [])
    decreases n
  {
    var es := Steps(pid, n) + [Crash(pid)];
    if n == 0 {
      assert es == [Crash(pid)] && es[1..] == [];
    } else {
      assert es[0] == Do(pid) && es[1..] == Steps(pid, n - 1) + [Crash(pid)];
      StepsRun(Apply(d, ops[0]), pid, ops[1..], n - 1, rel);
      assert ops[..n][1..] == ops[1..][..n - 1];
    }
  }

  lemma DyingRuns(w: World, pid: Pid, request: Request, n: nat, rel: Catalogue)
    requires Enabled(w, Lock(pid, request), rel) && n <= |PlanOf(w.disk, request)|
    ensures var es := Dying(pid, request, n);
            && Runs(w, es, rel)
            && After(w, es, rel) == World(ApplyAll(w.disk, PlanOf(w.disk, request)[..n]), None, [])
  {
    var es := Dying(pid, request, n);
    assert es[0] == Lock(pid, request) && es[1..] == Steps(pid, n) + [Crash(pid)];
    StepsRun(w.disk, pid, PlanOf(w.disk, request), n, rel);
  }

  lemma TwoOps(d: Disk, first: Op, second: Op)
    ensures ApplyAll(d, [first, second]) == Apply(Apply(d, first), second)
  {
    assert [first, second][1..] == [second] && [second][1..] == [];
    assert ApplyAll(Apply(d, first), [second]) == Apply(Apply(d, first), second);
  }

  /** Installing the first release of an empty root, up to and including the journal record. */
  lemma FirstRecord(d: Disk, request: Download, rel: Catalogue)
    requires d == Disk(true, true, map[], [], None, NoCommand, None)
    requires Fetched(request, rel) && Undisturbed(request)
    ensures var ops := ActivateDownloadLocked(d, request).ops;
            var v := request.version;
            && |ops| > 14
            && ApplyAll(d, ops[..14])
               == Disk(true, true, map[v := VersionDir(v, request.freshId, request.signed, true)],
                       [Staged(request.tx, None)], Some(Pending(true, None, v, request.tx)), NoCommand, None)
  {
    var id := request.freshId;
    var content := VersionDir(request.version, id, request.signed, true);
    var a := CleanupOps(d) + StageOps(request.tx, content);
    var b := ActivateOps(None, request.version, id, request.tx, Some(request.tx));
    assert ChooseId(d, request.version, id) == Ok(id);
    StagingSafe(d, request, id, rel);
    assert ActivateDownloadLocked(d, request).ops == a + b;
    var record := Pending(true, None, request.version, request.tx);
    var last := [Mark(SelfTested), PutPending(record)];
    assert |a| == 12 && b[..2] == last && (a + b)[..14] == a + last;
    ApplyAllConcat(d, a, last);
    var ready := Staging(d, request, id);
    assert ready == d.(versions := map[request.version := content], staging := [Staged(request.tx, None)]);
    TwoOps(ready, Mark(SelfTested), PutPending(record));
  }

  /**
   Recovery is not re-entrant on a reachable disk.  A first installation dies once its journal record
   is written; a recovery would sweep its transaction, but if it dies right after removing the record,
   no later recovery does.
   */
  lemma NoticedCrash(request: Download, rel: Catalogue)
    requires Fetched(request, rel) && Undisturbed(request)
    ensures var w := World(Disk(true, true, map[], [], None, NoCommand, None), None, []);
            var es := Dying(0, Downloading(request), 14);
            && Fresh(w) && Runs(w, es, rel)
            && var d := After(w, es, rel).disk;
               && RecoverIfManaged(d).result.Ok? && !Reentrant(d)
               && Final(d).staging == [] && Final(Crashes(d, [2])).staging == [Staged(request.tx, None)]
  {
    var d := Disk(true, true, map[], [], None, NoCommand, None);
    FirstRecord(d, request, rel);
    DyingRuns(World(d, None, []), 0, Downloading(request), 14, rel);
    var d' := ApplyAll(d, ActivateDownloadLocked(d, request).ops[..14]);
    var ops := RecoverIfManaged(d').ops;
    assert ops[..2] == [Mark(LockAcquired), DropPending];
    TwoOps(d', Mark(LockAcquired), DropPending);
    assert [2][1..] == [];
    assert ApplyAll(d', ops[..2]) == d'.(pending := None);
    assert Crashes(d', [2]) == Crashes(ApplyAll(d', ops[..2]), []);
  }
}
