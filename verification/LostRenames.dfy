/**
 The four ways in which a death leaves a medium that is not settled, each as a run: an operation dies
 between a rename and the synchronisation of its directory, or a lock file is not durable yet; the next
 operation relies on what is not durable; the power is cut.
 */
module LostRenames {
  import opened Results
  import opened ManagedState
  import opened Plans
  import opened Consistency
  import opened PlanSafety
  import opened Contention
  import opened RecoveryLaws
  import opened Operations
  import opened Durability
  import opened Readiness
  import opened PowerCuts

  /** A private root in which nothing has been installed. */
  const EMPTY := Disk(true, true, map[], [], None, NoCommand, None)

  /** The first operation dies after `n` steps, and in the second the power is cut after `k`. */
  function Interrupted(first: Request, n: nat, second: Request, k: nat, survivor: Disk): seq<PoweredEvent> {
    Begun(first, n) + ([Die(0)] + (Begun(second, k) + [PowerCut(survivor)]))
  }

  /** The medium after some steps of an operation. */
  ghost function Partly(m: Media, request: Request, n: nat): Media
    requires n <= |PlanOf(m.vol, request)|
  {
    MediaApplyAll(m, PlanOf(m.vol, request)[..n])
  }

  ghost predicate MayLock(m: Media, request: Request, rel: Catalogue) {
    m.vol.lockFile && (request.Downloading? ==> Fetched(request.download, rel))
  }

  lemma CutReaches(m: Media, request: Request, n: nat, survivor: Disk, rel: Catalogue)
    requires MayLock(m, request, rel) && n <= |PlanOf(m.vol, request)|
    requires Survives(Partly(m, request, n), survivor)
    ensures var es := Begun(request, n) + [PowerCut(survivor)];
            PoweredRuns(Idle(m), es, rel) && PoweredAfter(Idle(m), es, rel) == Idle(Durable(survivor))
  {
    BegunReaches(m, request, n, [PowerCut(survivor)], rel);
    assert [PowerCut(survivor)][1..] == [];
  }

  lemma DeathReaches(m: Media, request: Request, n: nat, last: seq<PoweredEvent>, rel: Catalogue)
    requires MayLock(m, request, rel) && n <= |PlanOf(m.vol, request)|
    requires PoweredRuns(Idle(Partly(m, request, n)), last, rel)
    ensures var es := Begun(request, n) + ([Die(0)] + last);
            PoweredRuns(Idle(m), es, rel)
            && PoweredAfter(Idle(m), es, rel) == PoweredAfter(Idle(Partly(m, request, n)), last, rel)
  {
    BegunReaches(m, request, n, [Die(0)] + last, rel);
    assert ([Die(0)] + last)[1..] == last;
  }

  lemma InterruptedReaches(m: Media, first: Request, n: nat, second: Request, k: nat, survivor: Disk, rel: Catalogue)
    requires MayLock(m, first, rel) && n <= |PlanOf(m.vol, first)|
    requires MayLock(Partly(m, first, n), second, rel) && k <= |PlanOf(Partly(m, first, n).vol, second)|
    requires Survives(Partly(Partly(m, first, n), second, k), survivor)
    ensures var es := Interrupted(first, n, second, k, survivor);
            PoweredRuns(Idle(m), es, rel) && PoweredAfter(Idle(m), es, rel) == Idle(Durable(survivor))
  {
    CutReaches(Partly(m, first, n), second, k, survivor, rel);
    DeathReaches(m, first, n, Begun(second, k) + [PowerCut(survivor)], rel);
  }

  /** From now on every recovery is refused, and with it every operation. */
  ghost predicate Broken(d: Disk) {
    && RecoverIfManaged(d).result == Err(Invalid)
    && (forall later :: InstallVersion(d, later) == Ended(d, Err(Invalid)))
  }

  lemma RefusedIsBroken(d: Disk)
    requires RecoverIfManaged(d).result == Err(Invalid)
    ensures Broken(d)
  {
    FinalIsComplete(d);
    assert ApplyAll(d, []) == d && [Mark(LockAcquired)][1..] == [];
    assert ApplyAll(d, [Mark(LockAcquired)]) == d;
  }

  // ---- Steps of an installation ----

  function Released(request: Download, id: Id): VersionDir {
    VersionDir(request.version, id, request.signed, true)
  }

  lemma MediaThree(m: Media, a: Op, b: Op, c: Op)
    ensures MediaApplyAll(m, [a, b, c]) == MediaApply(MediaApply(MediaApply(m, a), b), c)
  {
    assert [a, b, c][1..] == [b, c];
    MediaTwo(MediaApply(m, a), b, c);
  }

  lemma PrefixSplits(m: Media, a: seq<Op>, b: seq<Op>, k: nat, rel: Catalogue)
    requires k <= |b|
    ensures |a| + k <= |a + b|
    ensures MediaApplyAll(m, (a + b)[..|a| + k]) == MediaApplyAll(MediaApplyAll(m, a), b[..k])
  {
    assert (a + b)[..|a| + k] == a + b[..k];
    WithstandsConcat(m, a, b[..k], rel);
  }

  /** A first installation, up to the point where its version is retained. */
  lemma FirstStages(m: Media, request: Download, rel: Catalogue)
    requires AllGood(m, rel) && m.vol == EMPTY && Fetched(request, rel) && Undisturbed(request)
    ensures var id := request.freshId;
            var a := [SyncStaging] + StageOps(request.tx, Released(request, id));
            var vol := EMPTY.(versions := map[request.version := Released(request, id)],
                              staging := [Staged(request.tx, None)]);
            && |a| == 12
            && PlanOf(EMPTY, Downloading(request))
               == a + ActivateOps(None, request.version, id, request.tx, Some(request.tx))
            && MediaApplyAll(m, a) == m.(vol := vol, settled := vol.versions)
  {
    var id := request.freshId;
    assert ChooseId(EMPTY, request.version, id) == Ok(id);
    BeginningWithstands(m, request, id, rel);
    assert CleanupOps(EMPTY) == [SyncStaging];
    assert PlanOf(EMPTY, Downloading(request)) == ActivateFresh(EMPTY, request, id).ops;
    assert Staging(EMPTY, request, id).versions == map[request.version := Released(request, id)];
  }

  /** The beginning of an activation: the self-test and the journal record, the selector, its
      synchronisation, and the document. */
  function ToRecord(record: Pending): seq<Op> {
    [Mark(SelfTested), PutPending(record)]
  }

  function ToSelector(record: Pending): seq<Op> {
    ToRecord(record) + [SyncRoot, Mark(PendingWritten), PutSelector(record.to)]
  }

  function ToDocument(record: Pending, state: Install): seq<Op> {
    ToSelector(record) + [SyncCommand, Mark(PointerSwitched), PutInstall(state)]
  }

  lemma ActivateHead(from: Option<Version>, to: Version, id: Id, txn: Id, tx: Option<Id>)
    ensures var ops := ActivateOps(from, to, id, txn, tx);
            var record, state := Pending(true, from, to, txn), Install(true, Some(to), from, id);
            && |ops| >= 8
            && ops[..2] == ToRecord(record) && ops[..5] == ToSelector(record)
            && ops[..6] == ToSelector(record) + [SyncCommand]
            && ops[..8] == ToDocument(record, state)
  {
  }

  function Recorded(m: Media, record: Pending): Media {
    m.(vol := m.vol.(pending := Some(record)), pendings := m.pendings + {Some(record)})
  }

  lemma RecordLeft(m: Media, record: Pending)
    ensures MediaApplyAll(m, ToRecord(record)) == Recorded(m, record)
  {
    MediaTwo(m, Mark(SelfTested), PutPending(record));
  }

  function Selected(m: Media, record: Pending): Media {
    m.(vol := m.vol.(pending := Some(record), command := Selects(record.to)), pendings := {Some(record)},
       installs := {m.vol.install}, lockSettled := true, commands := m.commands + {Selects(record.to)})
  }

  lemma SelectorLeft(m: Media, record: Pending, rel: Catalogue)
    ensures MediaApplyAll(m, ToSelector(record)) == Selected(m, record)
  {
    RecordLeft(m, record);
    var m1 := Recorded(m, record);
    MediaThree(m1, SyncRoot, Mark(PendingWritten), PutSelector(record.to));
    WithstandsConcat(m, ToRecord(record), [SyncRoot, Mark(PendingWritten), PutSelector(record.to)], rel);
  }

  lemma SyncedLeft(m: Media, record: Pending, rel: Catalogue)
    ensures MediaApplyAll(m, ToSelector(record) + [SyncCommand])
         == Selected(m, record).(commands := {Selects(record.to)})
  {
    SelectorLeft(m, record, rel);
    WithstandsConcat(m, ToSelector(record), [SyncCommand], rel);
    assert [SyncCommand][1..] == [];
  }

  function Described(m: Media, record: Pending, state: Install): Media {
    var m1 := Selected(m, record);
    m1.(vol := m1.vol.(install := Some(state)), commands := {Selects(record.to)},
        installs := {m.vol.install, Some(state)})
  }

  lemma DocumentLeft(m: Media, record: Pending, state: Install, rel: Catalogue)
    ensures MediaApplyAll(m, ToDocument(record, state)) == Described(m, record, state)
  {
    var last := [SyncCommand, Mark(PointerSwitched), PutInstall(state)];
    SelectorLeft(m, record, rel);
    MediaThree(Selected(m, record), last[0], last[1], last[2]);
    WithstandsConcat(m, ToSelector(record), last, rel);
  }

  /** A first installation after `12 + j` steps. */
  lemma FirstPartly(m: Media, request: Download, j: nat, rel: Catalogue)
    requires AllGood(m, rel) && m.vol == EMPTY && Fetched(request, rel) && Undisturbed(request) && j <= 8
    ensures 12 + j <= |PlanOf(EMPTY, Downloading(request))|
    ensures var v, id, tx := request.version, request.freshId, request.tx;
            var vol := EMPTY.(versions := map[v := Released(request, id)], staging := [Staged(tx, None)]);
            var b := ActivateOps(None, v, id, tx, Some(tx));
            && j <= |b|
            && Partly(m, Downloading(request), 12 + j)
               == MediaApplyAll(m.(vol := vol, settled := vol.versions), b[..j])
  {
    var v, id, tx := request.version, request.freshId, request.tx;
    var a, b := [SyncStaging] + StageOps(tx, Released(request, id)), ActivateOps(None, v, id, tx, Some(tx));
    FirstStages(m, request, rel);
    ActivateHead(None, v, id, tx, Some(tx));
    PrefixSplits(m, a, b, j, rel);
  }

  // ---- The lock file ----

  /**
   The first installation of all creates the lock file, which no synchronisation makes durable before
   the journal record is visible.  A record that survives without it is refused for ever.
   */
  lemma LockFileWindow(request: Download, rel: Catalogue)
    requires Fetched(request, rel) && Undisturbed(request)
    ensures var start := Idle(Durable(EMPTY.(lockFile := false)));
            var survivor := EMPTY.(lockFile := false,
                versions := map[request.version := Released(request, request.freshId)],
                pending := Some(Pending(true, None, request.version, request.tx)));
            var es := [CreateLock] + (Begun(Downloading(request), 14) + [PowerCut(survivor)]);
            && PoweredRuns(start, es, rel) && PoweredAfter(start, es, rel) == Idle(Durable(survivor))
            && Broken(survivor)
  {
    var first := Durable(EMPTY.(lockFile := false));
    DurableIsSettled(first.vol, rel);
    CreateLockKeeps(first, rel);
    var m := first.(vol := EMPTY, lockSettled := false);
    FirstPartly(m, request, 2, rel);
    var record := Pending(true, None, request.version, request.tx);
    ActivateHead(None, request.version, request.freshId, request.tx, Some(request.tx));
    var versions := map[request.version := Released(request, request.freshId)];
    var ready := m.(vol := EMPTY.(versions := versions, staging := [Staged(request.tx, None)]), settled := versions);
    RecordLeft(ready, record);
    var survivor := EMPTY.(lockFile := false, versions := versions, pending := Some(record));
    assert Survives(Partly(m, Downloading(request), 14), survivor);
    CutReaches(m, Downloading(request), 14, survivor, rel);
    var es := [CreateLock] + (Begun(Downloading(request), 14) + [PowerCut(survivor)]);
    assert es[1..] == Begun(Downloading(request), 14) + [PowerCut(survivor)];
    RefusedIsBroken(survivor);
  }

  // ---- The selector ----

  /** Recovery of an executed first record, up to the first synchronisation after the record's removal. */
  lemma RecoveryRemoves(m: Media, record: Pending, state: Install, rel: Catalogue)
    requires m.vol.pending == Some(record) && m.vol.command == Selects(record.to) && m.vol.install.None?
    requires ValidPending(record) && VerifiedVersion(m.vol, record.to, None) && state == Completed(m.vol, record)
    ensures 6 <= |PlanOf(m.vol, Recovering)|
    ensures Partly(m, Recovering, 6)
         == m.(vol := m.vol.(install := Some(state), pending := None), pendings := {None}, installs := {Some(state)},
               lockSettled := true)
  {
    var a, b := [PutInstall(state), SyncRoot, Mark(InstallWritten)], [DropPending, Mark(PendingRemoved), SyncRoot];
    assert RecoverLocked(m.vol).ops[..6] == a + b;
    MediaThree(m, a[0], a[1], a[2]);
    MediaThree(MediaApplyAll(m, a), b[0], b[1], b[2]);
    WithstandsConcat(m, a, b, rel);
  }

  /** The medium from which a first installation commits. */
  function FirstReady(request: Download): Media {
    var id := request.freshId;
    Durable(EMPTY.(versions := map[request.version := Released(request, id)], staging := [Staged(request.tx, None)]))
  }

  /** A first installation that dies with the selector visible and its directory not synchronised. */
  lemma SwitchedPartly(request: Download, rel: Catalogue)
    requires Fetched(request, rel) && Undisturbed(request)
    ensures var record := Pending(true, None, request.version, request.tx);
            && 17 <= |PlanOf(EMPTY, Downloading(request))|
            && Partly(Durable(EMPTY), Downloading(request), 17) == Selected(FirstReady(request), record)
            && !Settled(Partly(Durable(EMPTY), Downloading(request), 17))
  {
    var m, v, id := Durable(EMPTY), request.version, request.freshId;
    DurableIsSettled(EMPTY, rel);
    FirstPartly(m, request, 5, rel);
    ActivateHead(None, v, id, request.tx, Some(request.tx));
    SelectorLeft(FirstReady(request), Pending(true, None, v, request.tx), rel);
    assert NoCommand in Partly(m, Downloading(request), 17).commands;
  }

  /**
   A first installation dies after the selector appears and before its directory is synchronised; the
   recovery that follows makes install.json and the removal of the record durable first.  The power is
   cut there: the selector is gone, install.json remains, and no later call ever succeeds.
   */
  lemma SelectorWindow(request: Download, rel: Catalogue)
    requires Fetched(request, rel) && Undisturbed(request)
    ensures var v, id := request.version, request.freshId;
            var start := Idle(Durable(EMPTY));
            var survivor := EMPTY.(versions := map[v := Released(request, id)],
                install := Some(Install(true, Some(v), None, id)));
            var es := Interrupted(Downloading(request), 17, Recovering, 6, survivor);
            && PoweredRuns(start, es, rel) && PoweredAfter(start, es, rel) == Idle(Durable(survivor))
            && Broken(survivor)
  {
    var m, v, id := Durable(EMPTY), request.version, request.freshId;
    SwitchedPartly(request, rel);
    var m1 := Partly(m, Downloading(request), 17);
    var state := Install(true, Some(v), None, id);
    RecoveryRemoves(m1, Pending(true, None, v, request.tx), state, rel);
    var survivor := EMPTY.(versions := map[v := Released(request, id)], install := Some(state));
    assert Survives(Partly(m1, Recovering, 6), survivor);
    InterruptedReaches(m, Downloading(request), 17, Recovering, 6, survivor, rel);
    RefusedIsBroken(survivor);
  }

  // ---- A version ----

  /** A first installation that dies with its version renamed and `versions/` not synchronised. */
  lemma RenamedPartly(request: Download, rel: Catalogue)
    requires Fetched(request, rel) && Undisturbed(request)
    ensures var content := Released(request, request.freshId);
            && 9 <= |PlanOf(EMPTY, Downloading(request))|
            && Partly(Durable(EMPTY), Downloading(request), 9)
               == Durable(EMPTY).(vol := WithVersion(EMPTY, request.tx, content))
            && !Settled(Partly(Durable(EMPTY), Downloading(request), 9))
  {
    var m, content := Durable(EMPTY), Released(request, request.freshId);
    DurableIsSettled(EMPTY, rel);
    FirstStages(m, request, rel);
    var a := [SyncStaging] + AttemptOps(request.tx, content) + SettleOps();
    var op := RenameStaged(request.tx, content.version);
    assert PlanOf(EMPTY, Downloading(request))[..9] == a + [op];
    LocalLeaves(m, a);
    AttemptSafe(EMPTY, request.tx, content, rel);
    QuietSafe(EMPTY, [SyncStaging], rel);
    var filled := EMPTY.(staging := [Staged(request.tx, Some(content))]);
    VisibleIsGood(m, rel);
    ApplyAllConcat(EMPTY, [SyncStaging], AttemptOps(request.tx, content));
    ApplyAllConcat(EMPTY, [SyncStaging] + AttemptOps(request.tx, content), SettleOps());
    LocalLeaves(m.(vol := filled), SettleOps());
    StageOne(EMPTY, request.tx, content);
    WithstandsConcat(m, a, [op], rel);
    assert [op][1..] == [];
    assert request.version in WithVersion(EMPTY, request.tx, content).versions;
  }

  /** Installing a retained version when nothing is selected, up to the synchronisation of the selector. */
  lemma RetainedPartly(m: Media, tx: Id, request: Download, content: VersionDir, rel: Catalogue)
    requires m.vol == EMPTY.(versions := map[request.version := content], staging := [Staged(tx, None)])
    requires content == VersionDir(request.version, content.id, request.signed, true) && request.selfTest
    ensures var record := Pending(true, None, request.version, request.txn);
            && 8 <= |PlanOf(m.vol, Downloading(request))|
            && Partly(m, Downloading(request), 8)
               == Selected(m.(vol := m.vol.(staging := [])), record).(commands := {Selects(request.version)})
  {
    var v, id := request.version, content.id;
    var record := Pending(true, None, v, request.txn);
    assert ChooseId(m.vol, v, request.freshId) == Ok(id);
    var a, b := CleanupOps(m.vol), ActivateOps(None, v, id, request.txn, None);
    assert m.vol.staging[1..] == [] && DropAllOps(m.vol.staging[1..]) == [];
    assert a == [DropStaged(tx)] + [] + [SyncStaging] && a == [DropStaged(tx), SyncStaging];
    assert PlanOf(m.vol, Downloading(request)) == a + [] + b && a + [] == a;
    assert WithoutTx([Staged(tx, None)], tx) == [];
    MediaTwo(m, DropStaged(tx), SyncStaging);
    ActivateHead(None, v, id, request.txn, None);
    PrefixSplits(m, a, b, 6, rel);
    SyncedLeft(m.(vol := m.vol.(staging := [])), record, rel);
  }

  /**
   A first installation dies after its version's rename and before `versions/` is synchronised; the next
   one reuses the directory and makes a selector to it durable.  The power is cut there: the selector
   names nothing, and no later call ever succeeds.
   */
  lemma VersionWindow(request: Download, again: Download, rel: Catalogue)
    requires Fetched(request, rel) && Undisturbed(request)
    requires Fetched(again, rel) && again.version == request.version && again.selfTest
    ensures var v := request.version;
            var start := Idle(Durable(EMPTY));
            var survivor := EMPTY.(pending := Some(Pending(true, None, v, again.txn)), command := Selects(v));
            var es := Interrupted(Downloading(request), 9, Downloading(again), 8, survivor);
            && PoweredRuns(start, es, rel) && PoweredAfter(start, es, rel) == Idle(Durable(survivor))
            && Broken(survivor)
  {
    var m, v, content := Durable(EMPTY), request.version, Released(request, request.freshId);
    RenamedPartly(request, rel);
    var m1 := Partly(m, Downloading(request), 9);
    assert m1.vol.versions == map[v := content];
    RetainedPartly(m1, request.tx, again, content, rel);
    var survivor := EMPTY.(pending := Some(Pending(true, None, v, again.txn)), command := Selects(v));
    assert Survives(Partly(m1, Downloading(again), 8), survivor);
    InterruptedReaches(m, Downloading(request), 9, Downloading(again), 8, survivor, rel);
    RefusedIsBroken(survivor);
  }

  // ---- install.json ----

  lemma {:induction false} DropAllLength(staging: seq<Staged>)
    ensures |DropAllOps(staging)| == |staging|
  {
    if staging != [] {
      DropAllLength(staging[1..]);
    }
  }

  lemma {:induction false} WithstandsPrefix(m: Media, ops: seq<Op>, k: nat, rel: Catalogue)
    requires Withstands(m, ops, rel) && k <= |ops|
    ensures AllGood(MediaApplyAll(m, ops[..k]), rel)
    decreases k
  {
    if k != 0 {
      assert ops[..k][1..] == ops[1..][..k - 1];
      WithstandsPrefix(MediaApply(m, ops[0]), ops[1..], k - 1, rel);
    }
  }

  /** A new version above the one that is selected and described. */
  ghost predicate Above(d: Disk, request: Download, id: Id, rel: Catalogue) {
    && d.command.Selects? && Names(d.install, Pointer(d)) && d.install.value.id == id
    && d.command.version < request.version && request.version !in d.versions
    && Fetched(request, rel) && Undisturbed(request)
  }

  /** An update, after its sweep of the staging area, eleven steps of staging and `j` of activation. */
  lemma LaterPartly(m: Media, request: Download, id: Id, j: nat, rel: Catalogue)
    requires AllGood(m, rel) && m.vol.lockFile && Above(m.vol, request, id, rel) && j <= 8
    ensures var n := |m.vol.staging| + 12 + j;
            var b := ActivateOps(Pointer(m.vol), request.version, id, request.tx, Some(request.tx));
            && j <= |b| && n <= |PlanOf(m.vol, Downloading(request))|
            && Partly(m, Downloading(request), n) == MediaApplyAll(StagedMedia(m, request, id), b[..j])
  {
    var d := m.vol;
    VisibleIsGood(m, rel);
    var begin := Beginning(d, request, id);
    var b := ActivateOps(Pointer(d), request.version, id, request.tx, Some(request.tx));
    BeginningWithstands(m, request, id, rel);
    DropAllLength(d.staging);
    assert |begin.ops| == |d.staging| + 12;
    assert PlanOf(d, Downloading(request)) == begin.ops + b;
    ActivateHead(Pointer(d), request.version, id, request.tx, Some(request.tx));
    PrefixSplits(m, begin.ops, b, j, rel);
  }

  /** The disk that a first installation leaves. */
  function Installed(request: Download): Disk {
    EMPTY.(versions := map[request.version := Released(request, request.freshId)],
           command := Selects(request.version),
           install := Some(Install(true, Some(request.version), None, request.freshId)))
  }

  lemma InstalledIsLeft(request: Download, rel: Catalogue)
    requires Fetched(request, rel) && Undisturbed(request)
    ensures ApplyAll(EMPTY, PlanOf(EMPTY, Downloading(request))) == Installed(request)
    ensures Good(Installed(request), rel)
  {
    var id := request.freshId;
    assert ChooseId(EMPTY, request.version, id) == Ok(id);
    ActivateFreshSafe(EMPTY, request, id, rel);
    assert Activated(EMPTY, request, id).versions == map[request.version := Released(request, id)];
  }

  /** The first update dies with install.json written and the root not synchronised. */
  lemma UpdatePartly(first: Download, second: Download, rel: Catalogue)
    requires Fetched(first, rel) && Undisturbed(first) && Fetched(second, rel) && Undisturbed(second)
    requires first.version < second.version
    ensures var m, id := Durable(Installed(first)), first.freshId;
            var record := Pending(true, Some(first.version), second.version, second.tx);
            var state := Install(true, Some(second.version), Some(first.version), id);
            && 20 <= |PlanOf(m.vol, Downloading(second))|
            && Partly(m, Downloading(second), 20) == Described(StagedMedia(m, second, id), record, state)
            && AllGood(Partly(m, Downloading(second), 20), rel) && !Settled(Partly(m, Downloading(second), 20))
  {
    var m, id := Durable(Installed(first)), first.freshId;
    InstalledIsLeft(first, rel);
    DurableIsSettled(m.vol, rel);
    LaterPartly(m, second, id, 8, rel);
    ActivateHead(Some(first.version), second.version, id, second.tx, Some(second.tx));
    var record := Pending(true, Some(first.version), second.version, second.tx);
    DocumentLeft(StagedMedia(m, second, id), record, Install(true, Some(second.version), Some(first.version), id), rel);
    AcquireKeeps(m, Downloading(second), rel);
    WithstandsPrefix(m, PlanOf(m.vol, Downloading(second)), 20, rel);
  }

  /** What the power cut leaves: the old install.json beside the selector and the new record. */
  function Behind(first: Download, second: Download, third: Download): Disk {
    var id := first.freshId;
    Disk(true, true,
         map[first.version := Released(first, id), second.version := Released(second, id),
             third.version := Released(third, id)],
         [], Some(Pending(true, Some(second.version), third.version, third.tx)), Selects(second.version),
         Installed(first).install)
  }

  /** Recovery discards the record; the next call is refused; the repair after it has lost `previous`. */
  lemma BehindForgets(first: Download, second: Download, third: Download)
    requires first.version < second.version < third.version
    ensures var d := Behind(first, second, third);
            && RecoverIfManaged(d).result == Ok(true)
            && RequireManagedCurrent(Final(d)) == Err(Invalid)
            && RecoverIfManaged(Final(d)).result == Ok(true)
            && Final(Final(d)).install == Some(Install(true, Some(second.version), None, first.freshId))
  {
  }

  lemma BehindSurvives(first: Download, second: Download, third: Download, rel: Catalogue)
    requires Fetched(first, rel) && Undisturbed(first) && Fetched(second, rel) && Undisturbed(second)
    requires Fetched(third, rel) && Undisturbed(third) && first.version < second.version < third.version
    ensures 20 <= |PlanOf(Installed(first), Downloading(second))|
    ensures var m1 := Partly(Durable(Installed(first)), Downloading(second), 20);
            && m1.vol.lockFile
            && 15 <= |PlanOf(m1.vol, Downloading(third))|
            && Survives(Partly(m1, Downloading(third), 15), Behind(first, second, third))
  {
    var m, id := Durable(Installed(first)), first.freshId;
    UpdatePartly(first, second, rel);
    var m1 := Partly(m, Downloading(second), 20);
    assert m1.vol.staging == [Staged(second.tx, None)];
    LaterPartly(m1, third, id, 2, rel);
    ActivateHead(Some(second.version), third.version, id, third.tx, Some(third.tx));
    var record := Pending(true, Some(second.version), third.version, third.tx);
    var ready := StagedMedia(m1, third, id);
    RecordLeft(ready, record);
    assert ready.vol.versions == Behind(first, second, third).versions;
  }

  /**
   An update dies after install.json is replaced and before the root is synchronised, and an update that
   had recovered before it replaces its journal record.  The power is cut there: the old install.json
   survives beside the new record.  Recovery discards the record, the next call is refused, and the
   repair after it has forgotten which version to roll back to.
   */
  lemma InstallWindow(first: Download, second: Download, third: Download, rel: Catalogue)
    requires Fetched(first, rel) && Undisturbed(first) && Fetched(second, rel) && Undisturbed(second)
    requires Fetched(third, rel) && Undisturbed(third) && first.version < second.version < third.version
    ensures var start := Idle(Durable(Installed(first)));
            var survivor := Behind(first, second, third);
            var es := Interrupted(Downloading(second), 20, Downloading(third), 15, survivor);
            && PoweredRuns(start, es, rel) && PoweredAfter(start, es, rel) == Idle(Durable(survivor))
            && RecoverIfManaged(survivor).result == Ok(true)
            && RequireManagedCurrent(Final(survivor)) == Err(Invalid)
            && RecoverIfManaged(Final(survivor)).result == Ok(true)
            && Final(Final(survivor)).install == Some(Install(true, Some(second.version), None, first.freshId))
  {
    BehindSurvives(first, second, third, rel);
    BehindForgets(first, second, third);
    InterruptedReaches(Durable(Installed(first)), Downloading(second), 20, Downloading(third), 15,
                       Behind(first, second, third), rel);
  }
}
