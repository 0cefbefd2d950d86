/**
 Any number of processes competing for the installation lock and dying anywhere.

 What a process reads before it locks only decides which request it makes, so the machine lets
 every process make any request at any time; the disk a locked operation works from is read under
 the lock.  A crash, an I/O error and a killed machine's surviving disk all drop the rest of a plan.
 */
module Contention {
  import opened Results
  import opened ManagedState
  import opened Plans
  import opened Consistency
  import opened PlanSafety

  type Pid = nat

  datatype Request =
    | Recovering
    | Downloading(download: Download)
    | Rolling(retained: Retained)

  datatype World = World(disk: Disk, holder: Option<Pid>, todo: seq<Op>)

  datatype Event =
    | MakeRoot
    | MakeLockFile
    | Lock(pid: Pid, request: Request)
    | Do(pid: Pid)
    | Unlock(pid: Pid)
    | Crash(pid: Pid)

  ghost function PlanOf(d: Disk, request: Request): seq<Op> {
    match request
    case Recovering => RecoverLocked(d).ops
    case Downloading(download) => ActivateDownloadLocked(d, download).ops
    case Rolling(retained) => ActivateExistingLocked(d, retained).ops
  }

  predicate Enabled(w: World, e: Event, rel: Catalogue) {
    match e
    case MakeRoot => true
    case MakeLockFile => w.disk.root
    case Lock(_, request) =>
      && w.holder.None? && w.disk.root && w.disk.lockFile
      && (request.Downloading? ==> Fetched(request.download, rel))
    case Do(pid) => w.holder == Some(pid) && w.todo != []
    case Unlock(pid) => w.holder == Some(pid) && w.todo == []
    case Crash(pid) => w.holder == Some(pid)
  }

  ghost function Step(w: World, e: Event, rel: Catalogue): World
    requires Enabled(w, e, rel)
  {
    match e
    case MakeRoot => w.(disk := w.disk.(root := true))
    case MakeLockFile => w.(disk := w.disk.(lockFile := true))
    case Lock(pid, request) => w.(holder := Some(pid), todo := PlanOf(w.disk, request))
    case Do(_) => w.(disk := Apply(w.disk, w.todo[0]), todo := w.todo[1..])
    case Unlock(_) => w.(holder := None)
    case Crash(_) => w.(holder := None, todo := [])
  }

  ghost predicate Runs(w: World, es: seq<Event>, rel: Catalogue)
    decreases |es|
  {
    es != [] ==> Enabled(w, es[0], rel) && Runs(Step(w, es[0], rel), es[1..], rel)
  }

  ghost function After(w: World, es: seq<Event>, rel: Catalogue): World
    requires Runs(w, es, rel)
    decreases |es|
  {
    if es == [] then w else After(Step(w, es[0], rel), es[1..], rel)
  }

  /** Nothing of ours on disk yet; the command path may hold something of the user's. */
  predicate Fresh(w: World) {
    && w.holder.None? && w.todo == []
    && w.disk.versions == map[] && w.disk.staging == []
    && w.disk.pending.None? && w.disk.install.None? && !w.disk.command.Selects?
  }

  ghost predicate Inv(w: World, rel: Catalogue) {
    PlanSafe(w.disk, w.todo, rel) && (w.holder.None? ==> w.todo == [])
  }

  lemma StepKeeps(w: World, e: Event, rel: Catalogue)
    requires Inv(w, rel) && Enabled(w, e, rel)
    ensures Inv(Step(w, e, rel), rel)
  {
    match e
    case Lock(_, request) =>
      match request {
        case Recovering => RecoverSafe(w.disk, rel);
        case Downloading(download) => DownloadSafe(w.disk, download, rel);
        case Rolling(retained) => RetainedSafe(w.disk, retained, rel);
      }
    case MakeRoot => RootIsQuiet(w.disk, w.disk.(root := true), w.todo, rel);
    case MakeLockFile => RootIsQuiet(w.disk, w.disk.(lockFile := true), w.todo, rel);
    case _ =>
  }

  /** Creating the root or the lock file under another process's feet does not disturb its plan. */
  lemma {:induction false} RootIsQuiet(d: Disk, d': Disk, ops: seq<Op>, rel: Catalogue)
    requires PlanSafe(d, ops, rel)
    requires d' == d.(root := d'.root, lockFile := d'.lockFile)
    requires (d.root ==> d'.root) && (d.lockFile ==> d'.lockFile)
    ensures PlanSafe(d', ops, rel)
    decreases |ops|
  {
    if ops != [] {
      RootIsQuiet(Apply(d, ops[0]), Apply(d', ops[0]), ops[1..], rel);
    }
  }

  lemma {:induction false} RunKeeps(w: World, es: seq<Event>, rel: Catalogue)
    requires Inv(w, rel) && Runs(w, es, rel)
    ensures Inv(After(w, es, rel), rel)
    decreases |es|
  {
    if es != [] {
      StepKeeps(w, es[0], rel);
      RunKeeps(Step(w, es[0], rel), es[1..], rel);
    }
  }

  // ---- Refinement of the atomic register ----

  function EventEffect(w: World, e: Event): Effect {
    if e.Do? && w.todo != [] then EffectOf(w.disk, w.todo[0]) else Stutter
  }

  ghost function Effects(w: World, es: seq<Event>, rel: Catalogue): seq<Effect>
    requires Runs(w, es, rel)
    decreases |es|
  {
    if es == [] then [] else [EventEffect(w, es[0])] + Effects(Step(w, es[0], rel), es[1..], rel)
  }

  function RegisterRun(r: Register, effects: seq<Effect>): Option<Register>
    decreases |effects|
  {
    if effects == [] then Some(r)
    else
      var next := RegisterNext(r, effects[0]);
      if next.None? then None else RegisterRun(next.value, effects[1..])
  }

  /** Every history is a run of the register: stutters, insertions and single-step switches. */
  lemma {:induction false} RunsRefineRegister(w: World, es: seq<Event>, rel: Catalogue)
    requires Inv(w, rel) && Runs(w, es, rel)
    ensures RegisterRun(Abs(w.disk), Effects(w, es, rel)) == Some(Abs(After(w, es, rel).disk))
    decreases |es|
  {
    if es != [] {
      var next := Step(w, es[0], rel);
      StepKeeps(w, es[0], rel);
      assert RegisterNext(Abs(w.disk), EventEffect(w, es[0])) == Some(Abs(next.disk));
      RunsRefineRegister(next, es[1..], rel);
      assert Effects(w, es, rel)[1..] == Effects(next, es[1..], rel);
    }
  }

  /** What holds of the disk in every reachable state, whoever is holding the lock. */
  lemma ReachableDisks(w: World, es: seq<Event>, rel: Catalogue)
    requires Fresh(w) && Runs(w, es, rel)
    ensures var d := After(w, es, rel).disk;
            // a journal record always names the selected version
            && (d.pending.Some? ==> Pointer(d) == d.pending.value.from || Pointer(d) == Some(d.pending.value.to))
            // the selector always names a retained and fully verified version
            && (d.command.Selects? ==>
                  VerifiedVersion(d, d.command.version, None)
                  && d.versions[d.command.version].signed == rel(d.command.version))
            // one installation id
            && (forall v <- d.versions, u <- d.versions :: d.versions[v].id == d.versions[u].id)
            && (d.install.Some? ==> forall v <- d.versions :: d.versions[v].id == d.install.value.id)
            // a command this engine did not create is never replaced
            && (w.disk.command.Foreign? ==> d.command == w.disk.command)
  {
    RunKeeps(w, es, rel);
    if w.disk.command.Foreign? {
      ForeignStays(w, es, rel);
    }
  }

  lemma {:induction false} ForeignStays(w: World, es: seq<Event>, rel: Catalogue)
    requires Inv(w, rel) && Runs(w, es, rel) && w.disk.command.Foreign? && w.todo == []
    ensures After(w, es, rel).disk.command == w.disk.command
    decreases |es|
  {
    if es != [] {
      var next := Step(w, es[0], rel);
      StepKeeps(w, es[0], rel);
      ForeignStays(next, es[1..], rel);
    }
  }

  /** Retained versions only grow and never change content. */
  lemma {:induction false} RetainedOnlyGrow(w: World, es: seq<Event>, rel: Catalogue)
    requires Inv(w, rel) && Runs(w, es, rel)
    ensures forall v <- w.disk.versions ::
              v in After(w, es, rel).disk.versions && After(w, es, rel).disk.versions[v] == w.disk.versions[v]
    decreases |es|
  {
    if es != [] {
      StepKeeps(w, es[0], rel);
      RetainedOnlyGrow(Step(w, es[0], rel), es[1..], rel);
    }
  }

  /**
   After any history, once nobody holds the lock, one complete recovery that finds a selected
   version leaves no journal and an install.json stating exactly the register's pair.
   */
  lemma RecoveryStatesTheRegister(w: World, es: seq<Event>, rel: Catalogue)
    requires Fresh(w) && Runs(w, es, rel)
    requires After(w, es, rel).holder.None? && After(w, es, rel).disk.command.Selects?
    ensures var d := After(w, es, rel).disk;
            var o := RecoverIfManaged(d);
            var d' := ApplyAll(d, o.ops);
            && o.result == Ok(true)
            && d.command.version in d.versions
            && d'.pending.None? && d'.staging == [] && d'.command == d.command && d'.versions == d.versions
            && d'.install == Some(Install(true, Abs(d).active, Abs(d).previous, d.versions[d.command.version].id))
  {
    RunKeeps(w, es, rel);
    var d := After(w, es, rel).disk;
    RecoverSafe(d, rel);
    ApplyAllConcat(d, [Mark(LockAcquired)], RecoverLocked(d).ops);
  }

  // ---- The gap between recovery and locking ----

  /** The journal record a successful activation writes over whatever it finds. */
  predicate Overwrites(ops: seq<Op>, from: Option<Version>, to: Version) {
    exists op <- ops :: op.PutPending? && op.record.from == from && op.record.to == to
  }

  /**
   A process may die between another's recovery and its lock, leaving a stale journal, whether of a
   first installation or a later one.  Either install.json no longer describes the selector, and a
   mutator is refused having touched nothing but the staging area; or it does, and the mutator
   overwrites the stale record.
   */
  lemma StaleJournal(d: Disk, request: Download, rollback: Retained, rel: Catalogue)
    requires Good(d, rel) && d.pending.Some? && Fetched(request, rel)
    ensures var o := ActivateDownloadLocked(d, request);
            var r := ActivateExistingLocked(d, rollback);
            && (!Describes(d, Pointer(d)) ==>
                  && o.result.Err? && ApplyAll(d, o.ops).(staging := d.staging) == d
                  && r.result.Err? && r.ops == [])
            && (o.result.Ok? && o.result.value.changed ==> Overwrites(o.ops, Pointer(d), request.version))
            && (r.result.Ok? ==> Overwrites(r.ops, Pointer(d), rollback.target))
  {
    var o := ActivateDownloadLocked(d, request);
    var r := ActivateExistingLocked(d, rollback);
    if !Describes(d, Pointer(d)) {
      CleanupSafe(d, rel);
    } else {
      if o.result.Ok? && o.result.value.changed {
        ChooseIdSound(d, request.version, request.freshId, rel);
        var id := ChooseId(d, request.version, request.freshId).value;
        var txn := if request.version in d.versions then request.txn else request.tx;
        assert PutPending(Pending(true, Pointer(d), request.version, txn))
            in CommitOps(Pointer(d), request.version, id, txn);
      }
      if r.result.Ok? {
        assert PutPending(Pending(true, Pointer(d), rollback.target, rollback.txn))
            in CommitOps(Pointer(d), rollback.target, d.install.value.id, rollback.txn);
      }
    }
  }
}
