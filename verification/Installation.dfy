/**
 The installation manager as the object the source has: methods that change the files under the root
 one step at a time and may be stopped by the fault injector at any boundary.  A ghost log records
 the operations performed; every method is proved to perform exactly its plan, or a prefix of it
 ending at the boundary that failed.
 */
module Installation {
  import opened Results
  import opened ManagedState
  import opened Plans
  import opened Consistency
  import opened PlanSafety
  import opened RecoveryLaws
  import opened Operations

  class Installation {
    var root: bool
    var lockFile: bool
    var versions: map<Version, VersionDir>
    var staging: seq<Staged>
    var pending: Option<Pending>
    var command: Command
    var install: Option<Install>

    /** The boundaries at which the fault injector fails. */
    const faults: set<FaultPoint>

    ghost var log: seq<Op>

    constructor (faults: set<FaultPoint>, d: Disk)
      ensures this.faults == faults && Snapshot() == d && log == []
    {
      this.faults := faults;
      root, lockFile, versions, staging := d.root, d.lockFile, d.versions, d.staging;
      pending, command, install := d.pending, d.command, d.install;
      log := [];
    }

    function Snapshot(): Disk
      reads this
    {
      Disk(root, lockFile, versions, staging, pending, command, install)
    }

    /** Since `start` and `before`, exactly `ops` have been performed. */
    ghost predicate Ran(start: Disk, before: seq<Op>, ops: seq<Op>)
      reads this
    {
      log == before + ops && Snapshot() == ApplyAll(start, ops)
    }

    /** None of these operations is a boundary at which the injector fails. */
    ghost predicate Clear(ops: seq<Op>) {
      forall op <- ops :: op.Mark? ==> op.point !in faults
    }

    /** The injector stopped a plan at the first boundary at which it fails. */
    ghost predicate Stopped(start: Disk, before: seq<Op>, ops: seq<Op>, point: FaultPoint)
      reads this
    {
      exists k :: 0 < k <= |ops| && ops[k - 1] == Mark(point) && Clear(ops[..k - 1]) && Ran(start, before, ops[..k])
    }

    /** The plan was performed with its result, or stopped at a boundary and reported so. */
    ghost predicate Performed<T>(start: Disk, before: seq<Op>, o: Outcome<T>, r: Res<T>)
      reads this
    {
      || (Ran(start, before, o.ops) && Clear(o.ops) && r == o.result)
      || (r.Err? && r.error.Fault? && r.error.point in faults && Stopped(start, before, o.ops, r.error.point))
    }

    // ---- Composing what has been performed ----

    lemma RanThen(start: Disk, before: seq<Op>, a: seq<Op>, mid: Disk, b: seq<Op>)
      requires mid == ApplyAll(start, a) && Ran(mid, before + a, b)
      ensures Ran(start, before, a + b)
    {
      ApplyAllConcat(start, a, b);
    }

    lemma StoppedThen(start: Disk, before: seq<Op>, a: seq<Op>, mid: Disk, b: seq<Op>, rest: seq<Op>, point: FaultPoint)
      requires mid == ApplyAll(start, a) && Clear(a) && Stopped(mid, before + a, b, point)
      ensures Stopped(start, before, a + b + rest, point)
    {
      var k :| 0 < k <= |b| && b[k - 1] == Mark(point) && Clear(b[..k - 1]) && Ran(mid, before + a, b[..k]);
      RanThen(start, before, a, mid, b[..k]);
      assert (a + b + rest)[..|a| + k - 1] == a + b[..k - 1];
      assert (a + b + rest)[..|a| + k] == a + b[..k];
      assert (a + b + rest)[|a| + k - 1] == Mark(point);
    }

    lemma StoppedAtEnd(start: Disk, before: seq<Op>, ops: seq<Op>, point: FaultPoint)
      requires Clear(ops) && Ran(start, before, ops + [Mark(point)])
      ensures Stopped(start, before, ops + [Mark(point)], point)
    {
      var all := ops + [Mark(point)];
      assert all[|all| - 1] == Mark(point) && all[..|all| - 1] == ops && all[..|all|] == all;
    }

    lemma StoppedEarlier(start: Disk, before: seq<Op>, ops: seq<Op>, rest: seq<Op>, point: FaultPoint)
      requires Clear(ops) && Ran(start, before, ops + [Mark(point)])
      ensures Stopped(start, before, ops + [Mark(point)] + rest, point)
    {
      var k, all := |ops| + 1, ops + [Mark(point)] + rest;
      assert all[k - 1] == Mark(point) && all[..k - 1] == ops && all[..k] == ops + [Mark(point)];
    }

    // ---- Single steps ----

    method Boundary(point: FaultPoint) returns (r: Res<()>)
      modifies `log
      ensures Ran(old(Snapshot()), old(log), [Mark(point)])
      ensures r == if point in faults then Err(Fault(point)) else Ok(())
    {
      log := log + [Mark(point)];
      r := if point in faults then Err(Fault(point)) else Ok(());
    }

    /** A directory barrier changes nothing visible. */
    ghost method Barrier(op: Op)
      requires Quiet(op)
      modifies `log
      ensures Ran(old(Snapshot()), old(log), [op])
    {
      log := log + [op];
    }

    method WritePending(record: Pending) returns (r: Res<()>)
      modifies `pending, `log
      ensures ValidPending(record) ==> Ran(old(Snapshot()), old(log), [PutPending(record), SyncRoot]) && r.Ok?
      ensures !ValidPending(record) ==> Ran(old(Snapshot()), old(log), []) && r == Err(Invalid)
    {
      if !ValidPending(record) {
        return Err(Invalid);
      }
      pending := Some(record);
      log := log + [PutPending(record)];
      Barrier(SyncRoot);
      assert [PutPending(record), SyncRoot][1..] == [SyncRoot];
      r := Ok(());
    }

    method RemovePending()
      modifies `pending, `log
      ensures Ran(old(Snapshot()), old(log), [DropPending])
    {
      pending := None;
      log := log + [DropPending];
    }

    method WriteInstallState(state: Install) returns (r: Res<()>)
      modifies `install, `log
      ensures ValidInstall(state) ==> Ran(old(Snapshot()), old(log), WriteInstallOps(state)) && r.Ok?
      ensures !ValidInstall(state) ==> Ran(old(Snapshot()), old(log), []) && r == Err(Invalid)
    {
      if !ValidInstall(state) {
        return Err(Invalid);
      }
      install := Some(state);
      log := log + [PutInstall(state)];
      Barrier(SyncRoot);
      assert WriteInstallOps(state)[1..] == [SyncRoot];
      r := Ok(());
    }

    method SwitchPointer(v: Version) returns (r: Res<()>)
      modifies `command, `log
      ensures v in versions && versions[v].intact ==>
                Ran(old(Snapshot()), old(log), [PutSelector(v), SyncCommand]) && r.Ok?
      ensures !(v in versions && versions[v].intact) ==> Ran(old(Snapshot()), old(log), []) && r == Err(Invalid)
    {
      if v !in versions || !versions[v].intact {
        return Err(Invalid);
      }
      command := Selects(v);
      log := log + [PutSelector(v)];
      Barrier(SyncCommand);
      assert [PutSelector(v), SyncCommand][1..] == [SyncCommand];
      r := Ok(());
    }

    method SyncAffectedParents()
      modifies `log
      ensures Ran(old(Snapshot()), old(log), SyncParentsOps())
    {
      Barrier(SyncRoot);
      Barrier(SyncVersions);
      Barrier(SyncCommand);
      assert SyncParentsOps()[1..] == [SyncVersions, SyncCommand];
      assert [SyncVersions, SyncCommand][1..] == [SyncCommand];
    }

    method RemoveTransaction(tx: Id)
      modifies `staging, `log
      ensures Ran(old(Snapshot()), old(log), [DropStaged(tx)])
    {
      staging := WithoutTx(staging, tx);
      log := log + [DropStaged(tx)];
    }

    /** The transactions are removed in directory order, one by one. */
    method CleanupStaging()
      modifies `staging, `log
      ensures Ran(old(Snapshot()), old(log), CleanupOps(old(Snapshot()))) && Clear(CleanupOps(old(Snapshot())))
      ensures Snapshot() == old(Snapshot()).(staging := [])
    {
      ghost var start, before := Snapshot(), log;
      var listing := staging;
      var i := 0;
      while i < |listing|
        invariant 0 <= i <= |listing|
        invariant Ran(start, before, DropAllOps(listing[..i]))
      {
        ghost var mid, done := Snapshot(), log;
        RemoveTransaction(listing[i].tx);
        DropAllSnoc(listing[..i], listing[i]);
        assert listing[..i + 1] == listing[..i] + [listing[i]];
        RanThen(start, before, DropAllOps(listing[..i]), mid, [DropStaged(listing[i].tx)]);
        i := i + 1;
      }
      assert listing[..i] == listing;
      ghost var mid := Snapshot();
      Barrier(SyncStaging);
      RanThen(start, before, DropAllOps(listing), mid, [SyncStaging]);
      AlwaysTail(start, [], x => true);
      assert [] + CleanupOps(start) == CleanupOps(start);
      DropAllUnmarked(listing);
    }

    // ---- The commit ----

    /** Self-test, journal, selector, install.json, journal removal, transaction removal, barriers. */
    method ActivatePointerAndState(from: Option<Version>, to: Version, id: Id, txn: Id, tx: Option<Id>, selfTest: bool)
      returns (r: Res<ActivationResult>)
      requires from != Some(to) && to in versions && versions[to].intact
      modifies this
      ensures !selfTest ==> Ran(old(Snapshot()), old(log), []) && r == Err(Invalid)
      ensures selfTest ==> Performed(old(Snapshot()), old(log),
                                     Outcome(ActivateOps(from, to, id, txn, tx), Ok(ActivationResult(to, true))), r)
    {
      if !selfTest {
        return Err(Invalid);
      }
      ghost var start, before := Snapshot(), log;
      ghost var head, commit, tail := [Mark(SelfTested)], CommitOps(from, to, id, txn), FinishOps(tx);
      var f := Boundary(SelfTested);
      if f.Err? {
        assert (head + commit + tail)[..1] == head;
        return Err(f.error);
      }
      ghost var d1 := Snapshot();
      var c := Commit(from, to, id, txn);
      if c.Err? {
        StoppedThen(start, before, head, d1, commit, tail, c.error.point);
        return Err(c.error);
      }
      RanThen(start, before, head, d1, commit);
      ghost var d2 := Snapshot();
      var e := FinishActivation(tx);
      if e.Err? {
        StoppedThen(start, before, head + commit, d2, tail, [], e.error.point);
        assert head + commit + tail + [] == head + commit + tail;
        return Err(e.error);
      }
      RanThen(start, before, head + commit, d2, tail);
      r := Ok(ActivationResult(to, true));
    }

    method Commit(from: Option<Version>, to: Version, id: Id, txn: Id) returns (r: Res<()>)
      requires from != Some(to) && to in versions && versions[to].intact
      modifies this
      ensures Performed(old(Snapshot()), old(log), Outcome(CommitOps(from, to, id, txn), Ok(())), r)
      ensures r.Err? ==> r.error.Fault?
    {
      ghost var start, before := Snapshot(), log;
      var record := Pending(true, from, to, txn);
      var state := Install(true, Some(to), from, id);
      ghost var a, b, c := WritePendingOps(record), SwitchOps(to),
        WriteInstallOps(state) + [Mark(InstallWritten)] + RemovePendingOps();
      var r1 := Journal(record);
      if r1.Err? {
        StoppedThen(start, before, [], start, a, b + c, r1.error.point);
        assert [] + a + (b + c) == a + (b + c);
        return Err(r1.error);
      }
      ghost var d1 := Snapshot();
      var r2 := Select(to);
      if r2.Err? {
        StoppedThen(start, before, a, d1, b, c, r2.error.point);
        assert a + b + c == a + (b + c);
        return Err(r2.error);
      }
      RanThen(start, before, a, d1, b);
      ghost var d2 := Snapshot();
      var r3 := Describe(state);
      assert a + b + c == a + (b + c);
      if r3.Err? {
        StoppedThen(start, before, a + b, d2, c, [], r3.error.point);
        assert a + b + c + [] == a + b + c;
        return Err(r3.error);
      }
      RanThen(start, before, a + b, d2, c);
      r := Ok(());
    }

    method Journal(record: Pending) returns (r: Res<()>)
      requires ValidPending(record)
      modifies `pending, `log
      ensures Performed(old(Snapshot()), old(log), Outcome(WritePendingOps(record), Ok(())), r)
      ensures r.Err? ==> r.error.Fault?
    {
      ghost var start, before := Snapshot(), log;
      var _ := WritePending(record);
      ghost var d1 := Snapshot();
      r := Boundary(PendingWritten);
      RanThen(start, before, [PutPending(record), SyncRoot], d1, [Mark(PendingWritten)]);
      assert WritePendingOps(record) == [PutPending(record), SyncRoot] + [Mark(PendingWritten)];
      StoppedAtEnd(start, before, [PutPending(record), SyncRoot], PendingWritten);
    }

    method Select(to: Version) returns (r: Res<()>)
      requires to in versions && versions[to].intact
      modifies `command, `log
      ensures Performed(old(Snapshot()), old(log), Outcome(SwitchOps(to), Ok(())), r)
      ensures r.Err? ==> r.error.Fault?
    {
      ghost var start, before := Snapshot(), log;
      var _ := SwitchPointer(to);
      ghost var d1 := Snapshot();
      r := Boundary(PointerSwitched);
      RanThen(start, before, [PutSelector(to), SyncCommand], d1, [Mark(PointerSwitched)]);
      assert SwitchOps(to) == [PutSelector(to), SyncCommand] + [Mark(PointerSwitched)];
      StoppedAtEnd(start, before, [PutSelector(to), SyncCommand], PointerSwitched);
    }

    /** Writing install.json and then removing the journal. */
    method Describe(state: Install) returns (r: Res<()>)
      requires ValidInstall(state)
      modifies `install, `pending, `log
      ensures Performed(old(Snapshot()), old(log),
                        Outcome(WriteInstallOps(state) + [Mark(InstallWritten)] + RemovePendingOps(), Ok(())), r)
      ensures r.Err? ==> r.error.Fault?
    {
      ghost var start, before := Snapshot(), log;
      ghost var a, b := WriteInstallOps(state) + [Mark(InstallWritten)], RemovePendingOps();
      var _ := WriteInstallState(state);
      ghost var d1 := Snapshot();
      r := Boundary(InstallWritten);
      RanThen(start, before, WriteInstallOps(state), d1, [Mark(InstallWritten)]);
      if r.Err? {
        StoppedEarlier(start, before, WriteInstallOps(state), b, InstallWritten);
        return;
      }
      ghost var d2 := Snapshot();
      r := Discard();
      if r.Err? {
        StoppedThen(start, before, a, d2, b, [], r.error.point);
        assert a + b + [] == a + b;
        return;
      }
      RanThen(start, before, a, d2, b);
    }

    method Discard() returns (r: Res<()>)
      modifies `pending, `log
      ensures Performed(old(Snapshot()), old(log), Outcome(RemovePendingOps(), Ok(())), r)
      ensures r.Err? ==> r.error.Fault?
    {
      ghost var start, before := Snapshot(), log;
      RemovePending();
      ghost var d1 := Snapshot();
      r := Boundary(PendingRemoved);
      RanThen(start, before, [DropPending], d1, [Mark(PendingRemoved)]);
      assert RemovePendingOps() == [DropPending] + [Mark(PendingRemoved)];
      StoppedAtEnd(start, before, [DropPending], PendingRemoved);
    }

    method FinishActivation(tx: Option<Id>) returns (r: Res<()>)
      modifies this
      ensures Performed(old(Snapshot()), old(log), Outcome(FinishOps(tx), Ok(())), r)
      ensures r.Err? ==> r.error.Fault?
    {
      ghost var start, before := Snapshot(), log;
      ghost var a := if tx.Some? then [DropStaged(tx.value), SyncStaging] else [];
      if tx.Some? {
        RemoveTransaction(tx.value);
        ghost var d0 := Snapshot();
        Barrier(SyncStaging);
        RanThen(start, before, [DropStaged(tx.value)], d0, [SyncStaging]);
        assert a == [DropStaged(tx.value)] + [SyncStaging];
      }
      ghost var d1 := Snapshot();
      SyncAffectedParents();
      RanThen(start, before, a, d1, SyncParentsOps());
      ghost var d2 := Snapshot();
      r := Boundary(ParentsSynced);
      RanThen(start, before, a + SyncParentsOps(), d2, [Mark(ParentsSynced)]);
      StoppedAtEnd(start, before, a + SyncParentsOps(), ParentsSynced);
    }

    // ---- Recovery ----

    method RecoverLocked() returns (r: Res<bool>)
      modifies this
      ensures Performed(old(Snapshot()), old(log), Plans.RecoverLocked(old(Snapshot())), r)
    {
      ghost var start, before := Snapshot(), log;
      if install.Some? && !ValidInstall(install.value) {
        return Err(Invalid);
      }
      if command.Foreign? {
        return Err(Invalid);
      }
      var pointer := Pointer(Snapshot());
      if pending.Some? {
        var record := pending.value;
        if !ValidPending(record) {
          return Err(Invalid);
        }
        if pointer == Some(record.to) {
          if !VerifiedVersion(Snapshot(), record.to, InstallId(Snapshot())) {
            return Err(Invalid);
          }
          JournalOps(start);
          r := Complete(record);
          return;
        }
        if pointer == record.from {
          JournalOps(start);
          r := Abandon();
          return;
        }
        return Err(Invalid);
      }
      if pointer.None? {
        if install.Some? && install.value.active.Some? {
          return Err(Invalid);
        }
        return Ok(false);
      }
      r := Reconcile(pointer.value);
    }

    /** The selector was switched: write the document that the record describes. */
    method Complete(record: Pending) returns (r: Res<bool>)
      requires ValidPending(record) && record.to in versions
      modifies this
      ensures var d, state := old(Snapshot()), Completed(old(Snapshot()), record);
              Performed(d, old(log),
                        Outcome(WriteInstallOps(state) + [Mark(InstallWritten)] + RemovePendingOps()
                                + (SyncParentsOps() + [Mark(ParentsSynced)] + CleanupOps(d)), Ok(true)), r)
    {
      ghost var start, before := Snapshot(), log;
      var repaired := Completed(Snapshot(), record);
      ghost var a := WriteInstallOps(repaired) + [Mark(InstallWritten)] + RemovePendingOps();
      ghost var b := SyncParentsOps() + [Mark(ParentsSynced)] + CleanupOps(start);
      var w := Describe(repaired);
      if w.Err? {
        StoppedThen(start, before, [], start, a, b, w.error.point);
        assert [] + a + b == a + b;
        return Err(w.error);
      }
      r := SyncAndSweep(start, before, a, true);
    }

    /** The selector was not switched: only the record goes. */
    method Abandon() returns (r: Res<bool>)
      modifies this
      ensures var d := old(Snapshot());
              Performed(d, old(log),
                        Outcome(RemovePendingOps() + (SyncParentsOps() + [Mark(ParentsSynced)] + CleanupOps(d)),
                                Ok(d.install.Some?)), r)
    {
      ghost var start, before := Snapshot(), log;
      var managed := install.Some?;
      ghost var b := SyncParentsOps() + [Mark(ParentsSynced)] + CleanupOps(start);
      var w := Discard();
      if w.Err? {
        StoppedThen(start, before, [], start, RemovePendingOps(), b, w.error.point);
        assert [] + RemovePendingOps() + b == RemovePendingOps() + b;
        return Err(w.error);
      }
      r := SyncAndSweep(start, before, RemovePendingOps(), managed);
    }

    /** How the plan of a recovery with a journal record is put together. */
    static lemma JournalOps(d: Disk)
      requires d.pending.Some? && Plans.RecoverLocked(d).result.Ok?
      ensures var record := d.pending.value;
              var tail := SyncParentsOps() + [Mark(ParentsSynced)] + CleanupOps(d);
              && (Pointer(d) == Some(record.to) ==>
                    record.to in d.versions
                    && Plans.RecoverLocked(d).ops
                       == WriteInstallOps(Completed(d, record)) + [Mark(InstallWritten)] + RemovePendingOps() + tail)
              && (Pointer(d) != Some(record.to) ==> Plans.RecoverLocked(d).ops == RemovePendingOps() + tail)
    {
    }

    /** The common end of a recovery that acted on a journal. */
    method SyncAndSweep(ghost start: Disk, ghost before: seq<Op>, ghost done: seq<Op>, result: bool)
      returns (r: Res<bool>)
      requires Ran(start, before, done) && Clear(done) && Snapshot().staging == start.staging
      modifies `staging, `log
      ensures Performed(start, before,
                        Outcome(done + (SyncParentsOps() + [Mark(ParentsSynced)] + CleanupOps(start)), Ok(result)), r)
    {
      ghost var all := done + (SyncParentsOps() + [Mark(ParentsSynced)] + CleanupOps(start));
      ghost var d1 := Snapshot();
      SyncAffectedParents();
      RanThen(start, before, done, d1, SyncParentsOps());
      ghost var d2 := Snapshot();
      var f := Boundary(ParentsSynced);
      RanThen(start, before, done + SyncParentsOps(), d2, [Mark(ParentsSynced)]);
      ghost var sofar := done + SyncParentsOps() + [Mark(ParentsSynced)];
      assert all == sofar + CleanupOps(start);
      if f.Err? {
        StoppedEarlier(start, before, done + SyncParentsOps(), CleanupOps(start), ParentsSynced);
        return Err(f.error);
      }
      ghost var d3 := Snapshot();
      SnapshotStaging(start, before, sofar, d1);
      CleanupStaging();
      RanThen(start, before, sofar, d3, CleanupOps(d3));
      r := Ok(result);
    }

    /** Barriers and boundaries leave the listing that a sweep will read unchanged. */
    lemma SnapshotStaging(start: Disk, before: seq<Op>, sofar: seq<Op>, d1: Disk)
      requires Ran(start, before, sofar) && Snapshot() == d1 && d1.staging == start.staging
      ensures CleanupOps(Snapshot()) == CleanupOps(start)
    {
    }

    /** No journal: make install.json describe the authoritative selector. */
    method Reconcile(v: Version) returns (r: Res<bool>)
      requires pending.None? && command == Selects(v)
      requires install.Some? ==> ValidInstall(install.value)
      modifies this
      ensures Performed(old(Snapshot()), old(log), Plans.RecoverLocked(old(Snapshot())), r)
    {
      ghost var start, before := Snapshot(), log;
      if !VerifiedVersion(Snapshot(), v, None) {
        return Err(Invalid);
      }
      ghost var done: seq<Op> := [];
      if NeedsRepair(Snapshot(), v) {
        var repaired := Repaired(Snapshot(), v);
        var _ := WriteInstallState(repaired);
        ghost var d1 := Snapshot();
        SyncAffectedParents();
        RanThen(start, before, WriteInstallOps(repaired), d1, SyncParentsOps());
        done := WriteInstallOps(repaired) + SyncParentsOps();
      }
      ghost var mid := Snapshot();
      CleanupStaging();
      RanThen(start, before, done, mid, CleanupOps(mid));
      r := Ok(true);
    }

    method RecoverIfManaged() returns (r: Res<bool>)
      modifies this
      ensures Performed(old(Snapshot()), old(log), Plans.RecoverIfManaged(old(Snapshot())), r)
    {
      ghost var start, before := Snapshot(), log;
      if !root {
        return Ok(false);
      }
      var hasPointer := PointerPathExists(Snapshot());
      if install.None? && pending.None? && !hasPointer {
        return Ok(false);
      }
      if hasPointer && install.None? && pending.None? && command.Foreign? {
        return Ok(false);
      }
      if !lockFile {
        return Err(Invalid);
      }
      var f := Boundary(LockAcquired);
      ghost var o := Plans.RecoverLocked(start);
      if f.Err? {
        assert ([Mark(LockAcquired)] + o.ops)[..1] == [Mark(LockAcquired)];
        return Err(f.error);
      }
      r := RecoverLocked();
      AfterMark(start, before, LockAcquired, o, r);
    }

    /** A plan that follows one boundary. */
    lemma AfterMark<T>(start: Disk, before: seq<Op>, point: FaultPoint, o: Outcome<T>, r: Res<T>)
      requires point !in faults && Performed(start, before + [Mark(point)], o, r)
      ensures Performed(start, before, Outcome([Mark(point)] + o.ops, o.result), r)
    {
      assert [Mark(point)][1..] == [];
      assert ApplyAll(start, [Mark(point)]) == start;
      if Ran(start, before + [Mark(point)], o.ops) && Clear(o.ops) && r == o.result {
        RanThen(start, before, [Mark(point)], start, o.ops);
      } else {
        StoppedThen(start, before, [Mark(point)], start, o.ops, [], r.error.point);
        assert [Mark(point)] + o.ops + [] == [Mark(point)] + o.ops;
      }
    }

    // ---- Activation ----

    /** The id on record, of the version itself, of any retained version, or a fresh one. */
    method ChooseInstallationId(v: Version, freshId: Id) returns (r: Res<Id>)
      requires install.Some? ==> ValidInstall(install.value)
      ensures r == ChooseId(Snapshot(), v, freshId)
    {
      ghost var d := Snapshot();
      if install.Some? {
        return Ok(install.value.id);
      }
      if v in versions {
        return if VerifiedVersion(Snapshot(), v, None) then Ok(versions[v].id) else Err(Invalid);
      }
      var remaining := versions.Keys;
      var existing: Option<Id> := None;
      ghost var last := v;
      while exists w :: w in remaining
        invariant remaining <= versions.Keys
        invariant existing.None? ==> remaining == versions.Keys
        invariant existing.Some? ==> last in versions && versions[last].id == existing.value
        invariant forall w <- versions :: w !in remaining ==>
                    VerifiedVersion(d, w, None) && existing == Some(versions[w].id)
        decreases |remaining|
      {
        var w :| w in remaining;
        if !VerifiedVersion(Snapshot(), w, None) || (existing.Some? && existing.value != versions[w].id) {
          assert w in d.versions && (existing.Some? ==> last in d.versions);
          assert !OneInstallation(d);
          return Err(Invalid);
        }
        existing, last := Some(versions[w].id), w;
        remaining := remaining - {w};
      }
      if existing.Some? {
        assert last in d.versions;
        return Ok(existing.value);
      }
      r := Ok(freshId);
    }

    method CreateTransaction(tx: Id) returns (r: Res<()>)
      modifies `staging, `log
      ensures Performed(old(Snapshot()), old(log), Outcome(CreateOps(tx), Ok(())), r)
      ensures r.Err? ==> r.error.Fault?
    {
      ghost var start, before := Snapshot(), log;
      staging := staging + [Staged(tx, None)];
      log := log + [CreateStaged(tx)];
      ghost var d1 := Snapshot();
      assert [CreateStaged(tx)][1..] == [];
      r := Boundary(StagingCreated);
      RanThen(start, before, [CreateStaged(tx)], d1, [Mark(StagingCreated)]);
      assert CreateOps(tx) == [CreateStaged(tx)] + [Mark(StagingCreated)];
      StoppedAtEnd(start, before, [CreateStaged(tx)], StagingCreated);
    }

    /** Writing the payload and its metadata. */
    method FillTransaction(tx: Id, content: VersionDir) returns (r: Res<()>)
      modifies `staging, `log
      ensures Performed(old(Snapshot()), old(log), Outcome(FillOps(tx, content), Ok(())), r)
      ensures r.Err? ==> r.error.Fault?
    {
      ghost var start, before := Snapshot(), log;
      ghost var head := [FillStaged(tx, content)];
      staging := SetContent(staging, tx, Some(content));
      log := log + [FillStaged(tx, content)];
      assert Ran(start, before, head) by { assert head[1..] == []; }
      ghost var d1 := Snapshot();
      r := Boundary(PayloadWritten);
      RanThen(start, before, head, d1, [Mark(PayloadWritten)]);
      StoppedAtEnd(start, before, head, PayloadWritten);
      assert FillOps(tx, content) == head + [Mark(PayloadWritten)];
    }

    /** Making a verified transaction durable. */
    method SettleTransaction() returns (r: Res<()>)
      modifies `log
      ensures Performed(old(Snapshot()), old(log), Outcome(SettleOps(), Ok(())), r)
      ensures r.Err? ==> r.error.Fault?
    {
      ghost var start, before := Snapshot(), log;
      ghost var head := [Mark(FaultPoint.Verified)];
      r := Boundary(FaultPoint.Verified);
      if r.Err? {
        assert [] + head == head;
        StoppedEarlier(start, before, [], [SyncStaging, Mark(StagingSynced)], FaultPoint.Verified);
        assert SettleOps() == head + [SyncStaging, Mark(StagingSynced)];
        return;
      }
      ghost var d1 := Snapshot();
      Barrier(SyncStaging);
      RanThen(start, before, head, d1, [SyncStaging]);
      ghost var d2 := Snapshot();
      r := Boundary(StagingSynced);
      RanThen(start, before, head + [SyncStaging], d2, [Mark(StagingSynced)]);
      StoppedAtEnd(start, before, head + [SyncStaging], StagingSynced);
      assert SettleOps() == head + [SyncStaging] + [Mark(StagingSynced)];
    }

    /** The no-replace rename of a verified transaction into the retained versions. */
    method RenameIntoVersions(tx: Id, content: VersionDir) returns (r: Res<()>)
      requires content.version !in versions && StagedContent(staging, tx) == Some(content)
      modifies `versions, `staging, `log
      ensures Performed(old(Snapshot()), old(log), Outcome(RenameOps(tx, content.version), Ok(())), r)
      ensures r.Err? ==> r.error.Fault?
      ensures versions == old(versions)[content.version := content]
    {
      ghost var start, before := Snapshot(), log;
      ghost var head := [RenameStaged(tx, content.version)];
      versions := versions[content.version := content];
      staging := SetContent(staging, tx, None);
      log := log + [RenameStaged(tx, content.version)];
      assert Ran(start, before, head) by { assert head[1..] == []; }
      ghost var d1 := Snapshot();
      Barrier(SyncVersions);
      RanThen(start, before, head, d1, [SyncVersions]);
      Barrier(SyncStaging);
      RanThen(start, before, head + [SyncVersions], d1, [SyncStaging]);
      ghost var ops := head + [SyncVersions] + [SyncStaging];
      r := Boundary(VersionRenamed);
      RanThen(start, before, ops, d1, [Mark(VersionRenamed)]);
      StoppedAtEnd(start, before, ops, VersionRenamed);
      assert RenameOps(tx, content.version) == ops + [Mark(VersionRenamed)];
    }

    /** Creating a transaction and writing what was downloaded into it. */
    method WriteVersion(tx: Id, content: VersionDir) returns (r: Res<()>)
      requires staging == []
      modifies `staging, `log
      ensures Performed(old(Snapshot()), old(log), Outcome(AttemptOps(tx, content), Ok(())), r)
      ensures r.Err? ==> r.error.Fault?
      ensures r.Ok? ==> StagedContent(staging, tx) == Some(content)
    {
      ghost var start, before := Snapshot(), log;
      ghost var a, b := CreateOps(tx), FillOps(tx, content);
      r := CreateTransaction(tx);
      if r.Err? {
        StoppedThen(start, before, [], start, a, b, r.error.point);
        assert [] + a + b == a + b;
        return;
      }
      ghost var d1 := Snapshot();
      StagedSoFar(start, tx, content);
      r := FillTransaction(tx, content);
      if r.Err? {
        StoppedThen(start, before, a, d1, b, [], r.error.point);
        assert a + b + [] == a + b;
        return;
      }
      RanThen(start, before, a, d1, b);
    }

    /** A verified transaction is made durable and moved into place. */
    method KeepVersion(tx: Id, content: VersionDir) returns (r: Res<()>)
      requires content.version !in versions && StagedContent(staging, tx) == Some(content)
      modifies `versions, `staging, `log
      ensures Performed(old(Snapshot()), old(log), Outcome(SettleOps() + RenameOps(tx, content.version), Ok(())), r)
      ensures r.Err? ==> r.error.Fault?
      ensures r.Ok? ==> versions == old(versions)[content.version := content]
    {
      ghost var start, before := Snapshot(), log;
      ghost var a, b := SettleOps(), RenameOps(tx, content.version);
      r := SettleTransaction();
      if r.Err? {
        StoppedThen(start, before, [], start, a, b, r.error.point);
        assert [] + a + b == a + b;
        return;
      }
      ghost var d1 := Snapshot();
      r := RenameIntoVersions(tx, content);
      if r.Err? {
        StoppedThen(start, before, a, d1, b, [], r.error.point);
        assert a + b + [] == a + b;
        return;
      }
      RanThen(start, before, a, d1, b);
    }

    /** Writing a release, verifying what has been written, and moving it into place. */
    method StageVersion(tx: Id, content: VersionDir, v: Version, id: Id) returns (r: Res<()>)
      requires staging == [] && v !in versions
      modifies `versions, `staging, `log
      ensures Performed(old(Snapshot()), old(log), Stage(tx, content, v, id), r)
      ensures r.Ok? ==> versions == old(versions)[v := content] && content.intact
    {
      ghost var start, before := Snapshot(), log;
      ghost var a, b := AttemptOps(tx, content), SettleOps() + RenameOps(tx, content.version);
      r := WriteVersion(tx, content);
      if r.Err? {
        StoppedThen(start, before, [], start, a, if VerifiedStaged(content, v, id) then b else [], r.error.point);
        assert [] + a + b == a + b && [] + a + [] == a;
        return;
      }
      if !VerifiedStaged(StagedContent(staging, tx).value, v, id) {
        return Err(Invalid);
      }
      ghost var d1 := Snapshot();
      r := KeepVersion(tx, content);
      if r.Err? {
        StoppedThen(start, before, a, d1, b, [], r.error.point);
        assert a + b + [] == a + b;
        return;
      }
      RanThen(start, before, a, d1, b);
    }

    lemma StagedSoFar(d: Disk, tx: Id, content: VersionDir)
      requires d.staging == []
      ensures ApplyAll(d, CreateOps(tx)) == d.(staging := [Staged(tx, None)])
      ensures ApplyAll(d.(staging := [Staged(tx, None)]), FillOps(tx, content))
          == d.(staging := [Staged(tx, Some(content))])
      ensures StagedContent([Staged(tx, Some(content))], tx) == Some(content)
    {
      StageOne(d, tx, content);
      var a, b := CreateOps(tx), FillOps(tx, content);
      AlwaysQuiet(d.(staging := [Staged(tx, None)]), a[1..], x => true);
      AlwaysQuiet(d.(staging := [Staged(tx, Some(content))]), b[1..], x => true);
    }

    method ActivateDownloadLocked(request: Download) returns (r: Res<ActivationResult>)
      modifies this
      ensures Performed(old(Snapshot()), old(log), Plans.ActivateDownloadLocked(old(Snapshot()), request), r)
    {
      ghost var start, before := Snapshot(), log;
      if install.Some? && !ValidInstall(install.value) {
        return Err(Invalid);
      }
      if command.Foreign? {
        return Err(Invalid);
      }
      if install.Some? && command.Selects? && request.version <= command.version {
        r := NotNewer(Snapshot(), request, command.version, install.value);
        return;
      }
      var id := ChooseInstallationId(request.version, request.freshId);
      if id.Err? {
        return Err(id.error);
      }
      r := ActivateFreshVersion(request, id.value);
    }

    method ActivateFreshVersion(request: Download, id: Id) returns (r: Res<ActivationResult>)
      requires !command.Foreign?
      requires install.Some? && command.Selects? ==> command.version < request.version
      modifies this
      ensures Performed(old(Snapshot()), old(log), ActivateFresh(old(Snapshot()), request, id), r)
    {
      ghost var start, before := Snapshot(), log;
      var v := request.version;
      var from := Pointer(Snapshot());
      CleanupStaging();
      ghost var cleanup, clean := CleanupOps(start), Snapshot();
      if !CommandOwned(Snapshot()) {
        return Err(Invalid);
      }
      var existing := v in versions;
      if existing && !SameRelease(Snapshot(), v, id, request.signed) {
        return Err(Invalid);
      }
      var tx := if existing then None else Some(request.tx);
      var txn := if existing then request.txn else request.tx;
      ghost var stage :=
        if existing then Outcome([], Ok(())) else Stage(request.tx, Content(request, id), v, id);
      ghost var rest := ActivateOps(from, v, id, txn, tx);
      if !existing {
        var s := StageVersion(request.tx, Content(request, id), v, id);
        if s.Err? {
          StageRefused(start, before, cleanup, clean, stage, rest, s);
          return Err(s.error);
        }
        RanThen(start, before, cleanup, clean, stage.ops);
      } else {
        assert cleanup + stage.ops == cleanup;
      }
      ghost var staged, ready := cleanup + stage.ops, Snapshot();
      r := ActivatePointerAndState(from, v, id, txn, tx, request.selfTest);
      ActivationPerformed(start, before, staged, ready, rest, ActivationResult(v, true), request.selfTest, r);
    }

    /** A self-test that fails adds nothing; otherwise the commit follows what has been staged. */
    lemma ActivationPerformed(start: Disk, before: seq<Op>, staged: seq<Op>, ready: Disk, rest: seq<Op>,
                              done: ActivationResult, selfTest: bool, r: Res<ActivationResult>)
      requires ready == ApplyAll(start, staged) && Clear(staged)
      requires !selfTest ==> Ran(ready, before + staged, []) && r == Err(Invalid)
      requires selfTest ==> Performed(ready, before + staged, Outcome(rest, Ok(done)), r)
      ensures Performed(start, before,
                        if selfTest then Outcome(staged + rest, Ok(done)) else Outcome(staged, Err(Invalid)), r)
    {
      if !selfTest {
        RanThen(start, before, staged, ready, []);
        assert staged + [] == staged;
      } else if Ran(ready, before + staged, rest) && Clear(rest) && r == Ok(done) {
        RanThen(start, before, staged, ready, rest);
      } else {
        StoppedThen(start, before, staged, ready, rest, [], r.error.point);
        assert staged + rest + [] == staged + rest;
      }
    }

    /** Staging that did not succeed was stopped at a boundary, or its verification refused. */
    lemma StageRefused(start: Disk, before: seq<Op>, cleanup: seq<Op>, clean: Disk, stage: Outcome<()>,
                       rest: seq<Op>, s: Res<()>)
      requires clean == ApplyAll(start, cleanup) && Clear(cleanup)
      requires Performed(clean, before + cleanup, stage, s) && s.Err?
      ensures stage.result.Err? ==> Performed(start, before, Outcome(cleanup + stage.ops, stage.result), s)
      ensures stage.result.Ok? ==>
                && s.error.Fault? && s.error.point in faults
                && Stopped(start, before, cleanup + stage.ops, s.error.point)
                && Stopped(start, before, cleanup + stage.ops + rest, s.error.point)
    {
      if Ran(clean, before + cleanup, stage.ops) && Clear(stage.ops) && s == stage.result {
        RanThen(start, before, cleanup, clean, stage.ops);
      } else {
        StoppedThen(start, before, cleanup, clean, stage.ops, [], s.error.point);
        StoppedThen(start, before, cleanup, clean, stage.ops, rest, s.error.point);
        assert cleanup + stage.ops + [] == cleanup + stage.ops;
      }
    }

    method ActivateExistingLocked(request: Retained) returns (r: Res<ActivationResult>)
      modifies this
      ensures Performed(old(Snapshot()), old(log), Plans.ActivateExistingLocked(old(Snapshot()), request), r)
    {
      ghost var start, before := Snapshot(), log;
      if install.None? {
        return Err(Unmanaged);
      }
      if command.Foreign? {
        return Err(Invalid);
      }
      if command.NoCommand? {
        return Err(Unmanaged);
      }
      var current := command.version;
      if request.target >= current {
        return Err(Invalid);
      }
      if !CommandOwned(Snapshot()) || !VerifiedVersion(Snapshot(), request.target, InstallId(Snapshot())) {
        return Err(Invalid);
      }
      ghost var head := [Mark(FaultPoint.Verified)];
      ghost var rest := ActivateOps(Some(current), request.target, install.value.id, request.txn, None);
      var f := Boundary(FaultPoint.Verified);
      if f.Err? {
        assert (head + rest)[..1] == head && head[..1] == head;
        return Err(f.error);
      }
      ghost var d1 := Snapshot();
      r := ActivatePointerAndState(Some(current), request.target, install.value.id, request.txn, None,
          request.selfTest);
      ActivationPerformed(start, before, head, d1, rest, ActivationResult(request.target, true), request.selfTest, r);
    }

    // ---- Public operations ----

    /** Wherever the injector stops a safe plan, the disk is good. */
    lemma PerformedGood<T>(start: Disk, before: seq<Op>, o: Outcome<T>, r: Res<T>, rel: Catalogue)
      requires PlanSafe(start, o.ops, rel) && Performed(start, before, o, r)
      ensures Good(Snapshot(), rel)
    {
      var ops := o.ops;
      if Ran(start, before, ops) {
        assert ops[..|ops|] == ops;
        PrefixGood(start, ops, |ops|, rel);
      } else {
        assert Stopped(start, before, ops, r.error.point);
        var k :| 0 < k <= |ops| && ops[k - 1] == Mark(r.error.point) && Clear(ops[..k - 1])
            && Ran(start, before, ops[..k]);
        PrefixGood(start, ops, k, rel);
      }
    }

    /** Recovery keeps a good disk good, whatever boundary it is stopped at. */
    method Recover(ghost rel: Catalogue) returns (r: Res<bool>)
      modifies this
      ensures Performed(old(Snapshot()), old(log), Plans.RecoverIfManaged(old(Snapshot())), r)
      ensures Good(old(Snapshot()), rel) ==> Good(Snapshot(), rel)
    {
      ghost var start, before := Snapshot(), log;
      r := RecoverIfManaged();
      if Good(start, rel) {
        RecoverSafe(start, rel);
        QuietSafe(start, [Mark(LockAcquired)], rel);
        SafeConcat(start, [Mark(LockAcquired)], Plans.RecoverLocked(start).ops, rel);
        QuietSafe(start, [], rel);
        PerformedGood(start, before, Plans.RecoverIfManaged(start), r, rel);
      }
    }

    method LockForMutation() returns (r: Res<()>)
      modifies `root, `lockFile, `log
      ensures Snapshot() == LockedDisk(old(Snapshot())) && log == old(log) + [Mark(LockAcquired)]
      ensures r == if LockAcquired in faults then Err(Fault(LockAcquired)) else Ok(())
    {
      root, lockFile := true, true;
      r := Boundary(LockAcquired);
    }

    method ActivateDownload(request: Download, ghost rel: Catalogue) returns (r: Res<ActivationResult>)
      modifies this
      ensures faults == {} ==> Ended(Snapshot(), r) == Operations.ActivateDownload(old(Snapshot()), request)
      ensures Good(old(Snapshot()), rel) && Fetched(request, rel) ==> Good(Snapshot(), rel)
    {
      var recovered := Recover(rel);
      if recovered.Err? {
        return Err(recovered.error);
      }
      if !command.NoCommand? && install.None? {
        return Err(Invalid);
      }
      ghost var d1 := Snapshot();
      var l := LockForMutation();
      if l.Err? {
        return Err(l.error);
      }
      ghost var d2, before := Snapshot(), log;
      r := ActivateDownloadLocked(request);
      ghost var o := Plans.ActivateDownloadLocked(d2, request);
      ApplyAllConcat(d2, [Mark(LockAcquired)], o.ops);
      if Good(d1, rel) && Fetched(request, rel) {
        DownloadSafe(d2, request, rel);
        PerformedGood(d2, before, o, r, rel);
      }
    }

    method InstallVersion(request: Download, ghost rel: Catalogue) returns (r: Res<ActivationResult>)
      modifies this
      ensures faults == {} ==> Ended(Snapshot(), r) == Operations.InstallVersion(old(Snapshot()), request)
      ensures Good(old(Snapshot()), rel) && Fetched(request, rel) ==> Good(Snapshot(), rel)
    {
      var recovered := Recover(rel);
      if recovered.Err? {
        return Err(recovered.error);
      }
      r := ActivateDownload(request, rel);
    }

    method Update(latest: Download, ghost rel: Catalogue) returns (r: Res<ActivationResult>)
      modifies this
      ensures faults == {} ==> Ended(Snapshot(), r) == Operations.Update(old(Snapshot()), latest)
      ensures Good(old(Snapshot()), rel) && Fetched(latest, rel) ==> Good(Snapshot(), rel)
    {
      var recovered := Recover(rel);
      if recovered.Err? {
        return Err(recovered.error);
      }
      var current := RequireManagedCurrent(Snapshot());
      if current.Err? {
        return Err(current.error);
      }
      if latest.version < current.value {
        return Err(Downgrade(current.value, latest.version));
      }
      if latest.version == current.value {
        return Ok(ActivationResult(current.value, false));
      }
      r := ActivateDownload(latest, rel);
    }

    method ActivateExisting(request: Retained, ghost rel: Catalogue) returns (r: Res<ActivationResult>)
      modifies this
      ensures faults == {} ==> Ended(Snapshot(), r) == Operations.ActivateExisting(old(Snapshot()), request)
      ensures Good(old(Snapshot()), rel) ==> Good(Snapshot(), rel)
    {
      ghost var d1 := Snapshot();
      var l := LockForMutation();
      if l.Err? {
        return Err(l.error);
      }
      ghost var d2, before := Snapshot(), log;
      r := ActivateExistingLocked(request);
      ghost var o := Plans.ActivateExistingLocked(d2, request);
      ApplyAllConcat(d2, [Mark(LockAcquired)], o.ops);
      if Good(d1, rel) {
        RetainedSafe(d2, request, rel);
        PerformedGood(d2, before, o, r, rel);
      }
    }

    method Rollback(txn: Id, selfTest: bool, ghost rel: Catalogue) returns (r: Res<ActivationResult>)
      modifies this
      ensures faults == {} ==> Ended(Snapshot(), r) == Operations.Rollback(old(Snapshot()), txn, selfTest)
      ensures Good(old(Snapshot()), rel) ==> Good(Snapshot(), rel)
    {
      var recovered := Recover(rel);
      if recovered.Err? {
        return Err(recovered.error);
      }
      var current := RequireManagedCurrent(Snapshot());
      if current.Err? {
        return Err(current.error);
      }
      var target := install.value.previous;
      if target.None? || target.value >= current.value {
        return Err(Invalid);
      }
      r := ActivateExisting(Retained(target.value, txn, selfTest), rel);
    }

    method RollbackTo(request: Retained, ghost rel: Catalogue) returns (r: Res<ActivationResult>)
      modifies this
      ensures faults == {} ==> Ended(Snapshot(), r) == Operations.RollbackTo(old(Snapshot()), request)
      ensures Good(old(Snapshot()), rel) ==> Good(Snapshot(), rel)
    {
      var recovered := Recover(rel);
      if recovered.Err? {
        return Err(recovered.error);
      }
      var current := RequireManagedCurrent(Snapshot());
      if current.Err? {
        return Err(current.error);
      }
      if request.target >= current.value {
        return Err(Invalid);
      }
      r := ActivateExisting(request, rel);
    }
  }

  lemma {:induction false} DropAllUnmarked(staging: seq<Staged>)
    ensures forall op <- DropAllOps(staging) :: !op.Mark?
  {
    if staging != [] {
      DropAllUnmarked(staging[1..]);
    }
  }

  lemma {:induction false} DropAllSnoc(staging: seq<Staged>, last: Staged)
    ensures DropAllOps(staging + [last]) == DropAllOps(staging) + [DropStaged(last.tx)]
  {
    if staging != [] {
      assert (staging + [last])[1..] == staging[1..] + [last];
      DropAllSnoc(staging[1..], last);
    }
  }
}
