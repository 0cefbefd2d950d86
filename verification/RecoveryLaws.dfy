/**
 Recovery of an arbitrary disk, whether or not this engine could have written it: its closed form,
 what repeated calls reach, and exactly when crashes inside it go unnoticed.
 */
module RecoveryLaws {
  import opened Results
  import opened ManagedState
  import opened Plans
  import opened Consistency

  /** The disk a complete call leaves; a refused call leaves what it found. */
  function Final(d: Disk): Disk {
    if RecoverIfManaged(d).result.Err? || !LooksManaged(d) then d
    else
      match d.pending
      case Some(pending) =>
        if Pointer(d) == Some(pending.to)
        then d.(install := Some(Install(true, Some(pending.to), pending.from, d.versions[pending.to].id)),
                pending := None, staging := [])
        else d.(pending := None, staging := [])
      case None =>
        match Pointer(d)
        case None => d
        case Some(v) =>
          d.(install := if NeedsRepair(d, v) then Some(Repaired(d, v)) else d.install, staging := [])
  }

  // ---- Every prefix of a plan satisfies a property of disks ----

  ghost predicate Always(d: Disk, ops: seq<Op>, p: Disk -> bool)
    decreases |ops|
  {
    p(d) && (ops != [] ==> Always(Apply(d, ops[0]), ops[1..], p))
  }

  lemma {:induction false} AlwaysConcat(d: Disk, a: seq<Op>, b: seq<Op>, p: Disk -> bool)
    requires Always(d, a, p) && Always(ApplyAll(d, a), b, p)
    ensures Always(d, a + b, p) && ApplyAll(d, a + b) == ApplyAll(ApplyAll(d, a), b)
    decreases |a|
  {
    if a == [] {
      assert a + b == b;
    } else {
      assert (a + b)[1..] == a[1..] + b;
      AlwaysConcat(Apply(d, a[0]), a[1..], b, p);
    }
  }

  lemma {:induction false} AlwaysQuiet(d: Disk, ops: seq<Op>, p: Disk -> bool)
    requires p(d) && forall op <- ops :: Quiet(op)
    ensures Always(d, ops, p) && ApplyAll(d, ops) == d
    decreases |ops|
  {
    if ops != [] {
      assert Quiet(ops[0]) && Apply(d, ops[0]) == d;
      AlwaysQuiet(d, ops[1..], p);
    }
  }

  lemma AlwaysChange(d: Disk, op: Op, quiet: seq<Op>, p: Disk -> bool)
    requires p(d) && p(Apply(d, op)) && forall q <- quiet :: Quiet(q)
    ensures Always(d, [op] + quiet, p) && ApplyAll(d, [op] + quiet) == Apply(d, op)
  {
    assert ([op] + quiet)[1..] == quiet;
    AlwaysQuiet(Apply(d, op), quiet, p);
  }

  lemma {:induction false} AlwaysDropAll(d: Disk, listing: seq<Staged>, p: Disk -> bool)
    requires forall staging :: p(d.(staging := staging))
    requires forall s <- d.staging :: s in listing
    ensures Always(d, DropAllOps(listing), p)
    ensures ApplyAll(d, DropAllOps(listing)) == d.(staging := [])
    decreases |listing|
  {
    assert p(d.(staging := d.staging));
    var first := if d.staging == [] then None else Some(d.staging[0]);
    assert first.Some? ==> first.value in listing;
    if listing != [] {
      var next := Apply(d, DropStaged(listing[0].tx));
      assert DropAllOps(listing)[1..] == DropAllOps(listing[1..]);
      WithoutTxShrinks(d.staging, listing[0].tx);
      forall staging ensures p(next.(staging := staging)) {
        assert next.(staging := staging) == d.(staging := staging);
      }
      AlwaysDropAll(next, listing[1..], p);
    }
  }

  lemma AlwaysTail(d: Disk, quiet: seq<Op>, p: Disk -> bool)
    requires forall staging :: p(d.(staging := staging))
    requires forall op <- quiet :: Quiet(op)
    ensures Always(d, quiet + CleanupOps(d), p)
    ensures ApplyAll(d, quiet + CleanupOps(d)) == d.(staging := [])
  {
    assert p(d.(staging := d.staging));
    AlwaysQuiet(d, quiet, p);
    AlwaysDropAll(d, d.staging, p);
    AlwaysQuiet(d.(staging := []), [SyncStaging], p);
    AlwaysConcat(d, DropAllOps(d.staging), [SyncStaging], p);
    AlwaysConcat(d, quiet, CleanupOps(d), p);
  }

  lemma {:induction false} AlwaysAt(d: Disk, ops: seq<Op>, k: nat, p: Disk -> bool)
    requires Always(d, ops, p) && k <= |ops|
    ensures p(ApplyAll(d, ops[..k]))
    decreases k
  {
    if k != 0 {
      assert ops[..k][1..] == ops[1..][..k - 1];
      AlwaysAt(Apply(d, ops[0]), ops[1..], k - 1, p);
    }
  }

  // ---- Crashes inside recovery ----

  /** When a crash anywhere inside a successful recovery leaves no trace after the next one. */
  predicate Reentrant(d: Disk) {
    LooksManaged(d) && d.pending.Some? && Pointer(d) == d.pending.value.from ==>
      match Pointer(d)
      case None => d.staging == [] && (d.install.Some? ==> d.install.value.active.None?)
      case Some(v) => VerifiedVersion(d, v, None) && !NeedsRepair(d, v)
  }

  /** A recovery of `d` would succeed, end at `f`, and be re-entrant. */
  ghost predicate Resumes(d: Disk, f: Disk) {
    RecoverIfManaged(d).result.Ok? && Final(d) == f && Reentrant(d)
  }

  lemma PlanResumes(d: Disk)
    requires RecoverIfManaged(d).result.Ok? && Reentrant(d)
    ensures Always(d, RecoverIfManaged(d).ops, x => Resumes(x, Final(d)))
    ensures ApplyAll(d, RecoverIfManaged(d).ops) == Final(d)
  {
    var f := Final(d);
    var p := x => Resumes(x, f);
    if LooksManaged(d) {
      var head := [Mark(LockAcquired)];
      AlwaysQuiet(d, head, p);
      if d.pending.Some? && Pointer(d) == Some(d.pending.value.to) {
        ForwardAlways(d, p);
      } else if d.pending.Some? {
        DiscardAlways(d, p);
      } else if d.command.Selects? {
        RepairAlways(d, p);
      } else {
        AlwaysQuiet(d, [], p);
      }
      AlwaysConcat(d, head, RecoverLocked(d).ops, p);
    }
  }

  /** The three disks of a completing recovery all lead to the same end. */
  lemma ForwardStates(d: Disk, staging: seq<Staged>)
    requires LooksManaged(d) && RecoverIfManaged(d).result.Ok?
    requires d.pending.Some? && Pointer(d) == Some(d.pending.value.to)
    ensures var pending := d.pending.value;
            var d1 := d.(install := Some(Install(true, Some(pending.to), pending.from, d.versions[pending.to].id)));
            && Resumes(d, Final(d)) && Resumes(d1, Final(d))
            && Resumes(d1.(pending := None, staging := staging), Final(d))
  {
  }

  lemma ForwardAlways(d: Disk, p: Disk -> bool)
    requires LooksManaged(d) && RecoverIfManaged(d).result.Ok?
    requires d.pending.Some? && Pointer(d) == Some(d.pending.value.to)
    requires forall x :: Resumes(x, Final(d)) ==> p(x)
    ensures Always(d, RecoverLocked(d).ops, p) && ApplyAll(d, RecoverLocked(d).ops) == Final(d)
  {
    var pending := d.pending.value;
    var state := Install(true, Some(pending.to), pending.from, d.versions[pending.to].id);
    var d1 := d.(install := Some(state));
    var d2 := d1.(pending := None);
    forall staging ensures p(d) && p(d1) && p(d2.(staging := staging)) {
      ForwardStates(d, staging);
    }
    CompletionAlways(d, state, p);
    AlwaysTail(d2, SyncParentsOps() + [Mark(ParentsSynced)], p);
    var head := WriteInstallOps(state) + [Mark(InstallWritten)] + RemovePendingOps();
    var tail := SyncParentsOps() + [Mark(ParentsSynced)] + CleanupOps(d2);
    AlwaysConcat(d, head, tail, p);
    assert RecoverLocked(d).ops == head + tail;
  }

  /** Writing the document and removing the journal goes through three disks. */
  lemma CompletionAlways(d: Disk, state: Install, p: Disk -> bool)
    requires var d1 := d.(install := Some(state)); p(d) && p(d1) && p(d1.(pending := None, staging := d.staging))
    ensures var ops := WriteInstallOps(state) + [Mark(InstallWritten)] + RemovePendingOps();
            Always(d, ops, p) && ApplyAll(d, ops) == d.(install := Some(state), pending := None)
  {
    var d1 := d.(install := Some(state));
    var d2 := d1.(pending := None);
    assert d2.(staging := d.staging) == d2;
    var a, b := WriteInstallOps(state) + [Mark(InstallWritten)], RemovePendingOps();
    assert a == [PutInstall(state)] + [SyncRoot, Mark(InstallWritten)];
    AlwaysChange(d, PutInstall(state), [SyncRoot, Mark(InstallWritten)], p);
    assert b == [DropPending] + [Mark(PendingRemoved)];
    AlwaysChange(d1, DropPending, [Mark(PendingRemoved)], p);
    AlwaysConcat(d, a, b, p);
  }

  lemma DiscardAlways(d: Disk, p: Disk -> bool)
    requires LooksManaged(d) && RecoverIfManaged(d).result.Ok? && Reentrant(d)
    requires d.pending.Some? && Pointer(d) != Some(d.pending.value.to)
    requires forall x :: Resumes(x, Final(d)) ==> p(x)
    ensures Always(d, RecoverLocked(d).ops, p) && ApplyAll(d, RecoverLocked(d).ops) == Final(d)
  {
    var d1 := d.(pending := None);
    var tail := SyncParentsOps() + [Mark(ParentsSynced)];
    assert p(d);
    assert RecoverLocked(d).ops == [DropPending] + [Mark(PendingRemoved)] + (tail + CleanupOps(d1));
    if d.command.Selects? {
      forall staging ensures p(d1.(staging := staging)) {
        assert Resumes(d1.(staging := staging), Final(d));
      }
      assert p(d1.(staging := d1.staging));
      AlwaysChange(d, DropPending, [Mark(PendingRemoved)], p);
      AlwaysTail(d1, tail, p);
    } else {
      assert Resumes(d1, Final(d)) && CleanupOps(d1) == [SyncStaging];
      AlwaysChange(d, DropPending, [Mark(PendingRemoved)], p);
      AlwaysQuiet(d1, tail + CleanupOps(d1), p);
    }
    AlwaysConcat(d, [DropPending] + [Mark(PendingRemoved)], tail + CleanupOps(d1), p);
  }

  lemma RepairAlways(d: Disk, p: Disk -> bool)
    requires LooksManaged(d) && RecoverIfManaged(d).result.Ok?
    requires d.pending.None? && d.command.Selects?
    requires forall x :: Resumes(x, Final(d)) ==> p(x)
    ensures Always(d, RecoverLocked(d).ops, p) && ApplyAll(d, RecoverLocked(d).ops) == Final(d)
  {
    var v := d.command.version;
    var d1 := if NeedsRepair(d, v) then d.(install := Some(Repaired(d, v))) else d;
    assert p(d);
    forall staging ensures p(d1.(staging := staging)) {
      RepairedResumes(d, staging);
    }
    assert p(d1.(staging := d1.staging));
    AlwaysTail(d1, [], p);
    assert [] + CleanupOps(d1) == CleanupOps(d1);
    if NeedsRepair(d, v) {
      var quiet := [SyncRoot] + SyncParentsOps();
      var head := WriteInstallOps(Repaired(d, v)) + SyncParentsOps();
      assert head == [PutInstall(Repaired(d, v))] + quiet;
      AlwaysChange(d, PutInstall(Repaired(d, v)), quiet, p);
      AlwaysConcat(d, head, CleanupOps(d1), p);
      assert RecoverLocked(d).ops == head + CleanupOps(d1);
    } else {
      assert RecoverLocked(d).ops == CleanupOps(d1);
    }
  }

  /** A repaired disk needs no other repair, whatever is still staged. */
  lemma RepairedResumes(d: Disk, staging: seq<Staged>)
    requires LooksManaged(d) && RecoverIfManaged(d).result.Ok?
    requires d.pending.None? && d.command.Selects?
    ensures var v := d.command.version;
            var d1 := if NeedsRepair(d, v) then d.(install := Some(Repaired(d, v))) else d;
            Resumes(d1.(staging := staging), Final(d))
  {
  }

  /** Successive recoveries, each dying after the given number of operations. */
  function Crashes(d: Disk, deaths: seq<nat>): Disk
    decreases |deaths|
  {
    if deaths == [] then d
    else
      var ops := RecoverIfManaged(d).ops;
      Crashes(ApplyAll(d, ops[..if deaths[0] < |ops| then deaths[0] else |ops|]), deaths[1..])
  }

  /** After those deaths a complete recovery succeeds with the same disk as an undisturbed one. */
  ghost predicate Unnoticed(d: Disk, deaths: seq<nat>) {
    var d' := Crashes(d, deaths);
    RecoverIfManaged(d').result.Ok? && Final(d') == Final(d)
  }

  lemma {:induction false} CrashesResume(d: Disk, deaths: seq<nat>)
    requires RecoverIfManaged(d).result.Ok? && Reentrant(d)
    ensures Unnoticed(d, deaths)
    decreases |deaths|
  {
    if deaths != [] {
      var ops := RecoverIfManaged(d).ops;
      var k := if deaths[0] < |ops| then deaths[0] else |ops|;
      PlanResumes(d);
      AlwaysAt(d, ops, k, x => Resumes(x, Final(d)));
      CrashesResume(ApplyAll(d, ops[..k]), deaths[1..]);
    }
  }

  /** The one harmful place: right after the journal of an unexecuted activation is removed. */
  lemma DeathAfterDiscard(d: Disk)
    requires RecoverIfManaged(d).result.Ok? && !Reentrant(d)
    ensures !Unnoticed(d, [2])
  {
    var ops := RecoverIfManaged(d).ops;
    assert ops[..2] == [Mark(LockAcquired), DropPending];
    assert ops[..2][1..] == [DropPending] && [DropPending][1..] == [];
    assert ApplyAll(d, ops[..2]) == d.(pending := None);
    assert Crashes(d, [2]) == d.(pending := None) by {
      assert [2][1..] == [];
    }
  }

  /**
   Any number of crashes inside recovery followed by a complete one equals a single complete one,
   on exactly the disks where removing a journal record loses no other work.
   */
  lemma ReentrantExactly(d: Disk)
    requires RecoverIfManaged(d).result.Ok?
    ensures (forall deaths :: Unnoticed(d, deaths)) <==> Reentrant(d)
  {
    if Reentrant(d) {
      forall deaths ensures Unnoticed(d, deaths) {
        CrashesResume(d, deaths);
      }
    } else {
      DeathAfterDiscard(d);
    }
  }

  /** On reachable disks only the leftovers of a first installation can outlive such a crash. */
  lemma ReachableReentrancy(d: Disk, rel: Catalogue)
    requires Good(d, rel)
    ensures Reentrant(d) <==> (d.pending.Some? && d.command.NoCommand? ==> d.staging == [])
  {
  }

  /** The closed form is what a call does. */
  lemma FinalIsComplete(d: Disk)
    ensures RecoverIfManaged(d).result.Ok? ==> ApplyAll(d, RecoverIfManaged(d).ops) == Final(d)
    ensures RecoverIfManaged(d).result.Err? ==>
              RecoverIfManaged(d).ops == [] || RecoverIfManaged(d).ops == [Mark(LockAcquired)]
    ensures Final(d).command == d.command && Final(d).versions == d.versions
  {
    if RecoverIfManaged(d).result.Ok? {
      if Reentrant(d) {
        PlanResumes(d);
      } else {
        var p := x => true;
        var d1 := d.(pending := None);
        var tail := SyncParentsOps() + [Mark(ParentsSynced)];
        AlwaysQuiet(d, [Mark(LockAcquired)], p);
        AlwaysChange(d, DropPending, [Mark(PendingRemoved)], p);
        AlwaysTail(d1, tail, p);
        AlwaysConcat(d, [DropPending] + [Mark(PendingRemoved)], tail + CleanupOps(d1), p);
        assert RecoverLocked(d).ops == [DropPending] + [Mark(PendingRemoved)] + (tail + CleanupOps(d1));
        AlwaysConcat(d, [Mark(LockAcquired)], RecoverLocked(d).ops, p);
      }
    }
  }

  /** From any disk at all, two successful calls reach a fixed point and never move the selector. */
  lemma TwoCallsSettle(d: Disk)
    requires RecoverIfManaged(d).result.Ok? && RecoverIfManaged(Final(d)).result.Ok?
    ensures var settled := Final(Final(d));
            RecoverIfManaged(settled).result.Ok? && Final(settled) == settled && settled.command == d.command
  {
  }

  /** One call settles every disk except where it discards a journal without repairing install.json. */
  predicate LeavesRepair(d: Disk) {
    && RecoverIfManaged(d).result.Ok? && LooksManaged(d)
    && d.pending.Some? && d.command.Selects? && d.pending.value.from == Pointer(d)
    && VerifiedVersion(d, d.command.version, None)
    && NeedsRepair(d, d.command.version)
  }

  lemma OneCallSettlesExactly(d: Disk)
    ensures Final(Final(d)) == Final(d) <==> !LeavesRepair(d)
  {
  }

  /** A concrete disk on which one call is not enough. */
  lemma OneCallIsNotEnough()
    ensures var one := VersionDir(1, 7, 10, true);
            var two := VersionDir(2, 7, 20, true);
            var d := Disk(true, true, map[1 := one, 2 := two], [], Some(Pending(true, Some(1), 2, 5)),
                          Selects(1), Some(Install(true, None, None, 7)));
            && RecoverIfManaged(d).result == Ok(true)
            && Final(d).install == Some(Install(true, None, None, 7))
            && Final(Final(d)).install == Some(Install(true, Some(1), None, 7))
  {
  }
}
