/** How the selected version moves over whole runs: up by downloads, strictly down by rollbacks. */
module VersionOrder {
  import opened Results
  import opened ManagedState
  import opened Plans
  import opened Consistency
  import opened Contention

  /** The versions a plan will select, in order. */
  function Selected(ops: seq<Op>): seq<Version> {
    if ops == [] then []
    else (if ops[0].PutSelector? then [ops[0].version] else []) + Selected(ops[1..])
  }

  lemma {:induction false} SelectedConcat(a: seq<Op>, b: seq<Op>)
    ensures Selected(a + b) == Selected(a) + Selected(b)
  {
    if a == [] {
      assert a + b == b;
    } else {
      var first := if a[0].PutSelector? then [a[0].version] else [];
      assert (a + b)[1..] == a[1..] + b;
      SelectedConcat(a[1..], b);
      assert first + (Selected(a[1..]) + Selected(b)) == first + Selected(a[1..]) + Selected(b);
    }
  }

  lemma {:induction false} SelectsNothing(ops: seq<Op>)
    requires forall op <- ops :: !op.PutSelector?
    ensures Selected(ops) == []
  {
    if ops != [] {
      assert !ops[0].PutSelector?;
      SelectsNothing(ops[1..]);
    }
  }

  lemma {:induction false} DropAllSelectsNothing(staging: seq<Staged>)
    ensures forall op <- DropAllOps(staging) :: !op.PutSelector?
  {
    if staging != [] {
      DropAllSelectsNothing(staging[1..]);
    }
  }

  lemma CommitSelects(from: Option<Version>, to: Version, id: Id, txn: Id)
    ensures Selected(CommitOps(from, to, id, txn)) == [to]
  {
    var record, state := Pending(true, from, to, txn), Install(true, Some(to), from, id);
    var after := WriteInstallOps(state) + [Mark(InstallWritten)] + RemovePendingOps();
    SelectsNothing(WritePendingOps(record));
    SelectsNothing(after);
    assert SwitchOps(to)[1..] == [SyncCommand, Mark(PointerSwitched)];
    SelectsNothing(SwitchOps(to)[1..]);
    SelectedConcat(SwitchOps(to), after);
    SelectedConcat(WritePendingOps(record), SwitchOps(to) + after);
  }

  lemma ActivateSelects(from: Option<Version>, to: Version, id: Id, txn: Id, tx: Option<Id>)
    ensures Selected(ActivateOps(from, to, id, txn, tx)) == [to]
  {
    var head, commit := [Mark(SelfTested)], CommitOps(from, to, id, txn);
    CommitSelects(from, to, id, txn);
    SelectsNothing(head);
    SelectsNothing(FinishOps(tx));
    SelectedConcat(head, commit);
    SelectedConcat(head + commit, FinishOps(tx));
  }

  lemma CleanupSelectsNothing(d: Disk)
    ensures Selected(CleanupOps(d)) == []
  {
    DropAllSelectsNothing(d.staging);
    SelectsNothing(CleanupOps(d));
  }

  lemma RecoverySelectsNothing(d: Disk)
    ensures Selected(RecoverLocked(d).ops) == []
  {
    var ops := RecoverLocked(d).ops;
    if ops != [] {
      var head :=
        if d.pending.None? then
          if NeedsRepair(d, d.command.version) then WriteInstallOps(Repaired(d, d.command.version)) + SyncParentsOps()
          else []
        else if Pointer(d) == Some(d.pending.value.to) then
          WriteInstallOps(ops[0].state) + [Mark(InstallWritten)] + RemovePendingOps() + SyncParentsOps()
          + [Mark(ParentsSynced)]
        else RemovePendingOps() + SyncParentsOps() + [Mark(ParentsSynced)];
      assert ops == head + CleanupOps(d);
      SelectsNothing(head);
      CleanupSelectsNothing(d);
      SelectedConcat(head, CleanupOps(d));
    }
  }

  lemma StageSelectsNothing(tx: Id, content: VersionDir, v: Version, id: Id)
    ensures Selected(Stage(tx, content, v, id).ops) == []
  {
    var a, b := AttemptOps(tx, content), SettleOps() + RenameOps(tx, content.version);
    SelectsNothing(a);
    SelectsNothing(b);
    SelectedConcat(a, b);
  }

  lemma FreshSelects(d: Disk, request: Download, id: Id)
    ensures var o := ActivateFresh(d, request, id);
            Selected(o.ops) == if o.result.Ok? then [request.version] else []
  {
    var v, o := request.version, ActivateFresh(d, request, id);
    CleanupSelectsNothing(d);
    if o.ops != CleanupOps(d) {
      var stage := if v in d.versions then Outcome([], Ok(())) else Stage(request.tx, Content(request, id), v, id);
      StageSelectsNothing(request.tx, Content(request, id), v, id);
      SelectedConcat(CleanupOps(d), stage.ops);
      if o.result.Ok? {
        var tx := if v in d.versions then None else Some(request.tx);
        var txn := if tx.Some? then tx.value else request.txn;
        ActivateSelects(Pointer(d), v, id, txn, tx);
        SelectedConcat(CleanupOps(d) + stage.ops, ActivateOps(Pointer(d), v, id, txn, tx));
      }
    }
  }

  lemma DownloadSelects(d: Disk, request: Download)
    ensures var o := ActivateDownloadLocked(d, request);
            || Selected(o.ops) == []
            || (&& Selected(o.ops) == [request.version]
                && (d.install.Some? && Pointer(d).Some? ==> Pointer(d).value < request.version))
  {
    var chosen := ChooseId(d, request.version, request.freshId);
    if chosen.Ok? {
      FreshSelects(d, request, chosen.value);
    }
  }

  lemma RetainedSelects(d: Disk, request: Retained)
    ensures var o := ActivateExistingLocked(d, request);
            || Selected(o.ops) == []
            || (Selected(o.ops) == [request.target] && Pointer(d).Some? && request.target < Pointer(d).value)
  {
    var o := ActivateExistingLocked(d, request);
    if o.result.Ok? {
      ActivateSelects(Pointer(d), request.target, d.install.value.id, request.txn, None);
      SelectsNothing([Mark(Verified)]);
      SelectedConcat([Mark(Verified)],
                     ActivateOps(Pointer(d), request.target, d.install.value.id, request.txn, None));
    } else {
      SelectsNothing(o.ops);
    }
  }

  datatype Direction = Up | Down

  predicate Towards(dir: Direction, from: Option<Version>, to: Version) {
    match dir
    case Up => from.Some? ==> from.value < to
    case Down => from.Some? && to < from.value
  }

  /** The lock holder will switch at most once more, and in this direction. */
  ghost predicate Heading(w: World, dir: Direction) {
    || Selected(w.todo) == []
    || (|Selected(w.todo)| == 1 && Towards(dir, Pointer(w.disk), Selected(w.todo)[0]))
  }

  /** The events of a run in which nobody asks for a move in the other direction. */
  predicate Only(dir: Direction, e: Event) {
    e.Lock? ==> e.request.Recovering? || (if dir.Up? then e.request.Downloading? else e.request.Rolling?)
  }

  lemma StepHeads(w: World, e: Event, dir: Direction, rel: Catalogue)
    requires Inv(w, rel) && Enabled(w, e, rel) && Heading(w, dir) && Only(dir, e)
    ensures Inv(Step(w, e, rel), rel) && Heading(Step(w, e, rel), dir)
    ensures match EventEffect(w, e)
            case Switch(v) => Towards(dir, Pointer(w.disk), v) && Pointer(Step(w, e, rel).disk) == Some(v)
            case _ => Pointer(Step(w, e, rel).disk) == Pointer(w.disk)
  {
    StepKeeps(w, e, rel);
    if e.Lock? {
      match e.request {
        case Recovering => RecoverySelectsNothing(w.disk);
        case Downloading(download) => DownloadSelects(w.disk, download);
        case Rolling(retained) => RetainedSelects(w.disk, retained);
      }
      UndescribedIsRefused(w.disk, e.request, rel);
    }
  }

  /** A selected version without install.json is never replaced: the command is not owned. */
  lemma UndescribedIsRefused(d: Disk, request: Request, rel: Catalogue)
    requires Good(d, rel)
    ensures request.Downloading? && d.install.None? && d.command.Selects? ==> Selected(PlanOf(d, request)) == []
  {
    if request.Downloading? && d.install.None? && d.command.Selects? {
      DropAllSelectsNothing(d.staging);
      SelectsNothing(PlanOf(d, request));
    }
  }

  predicate NotBelow(a: Option<Version>, b: Option<Version>) {
    a.Some? ==> b.Some? && a.value <= b.value
  }

  /** Without rollbacks no history of crashes and races ever lowers the selected version. */
  lemma {:induction false} DownloadsNeverLower(w: World, es: seq<Event>, rel: Catalogue)
    requires Inv(w, rel) && Runs(w, es, rel) && Heading(w, Up)
    requires forall e <- es :: Only(Up, e)
    ensures NotBelow(Pointer(w.disk), Pointer(After(w, es, rel).disk))
    decreases |es|
  {
    if es != [] {
      assert Only(Up, es[0]);
      StepHeads(w, es[0], Up, rel);
      DownloadsNeverLower(Step(w, es[0], rel), es[1..], rel);
    }
  }

  function Switches(effects: seq<Effect>): nat {
    if effects == [] then 0 else (if effects[0].Switch? then 1 else 0) + Switches(effects[1..])
  }

  /** The retained versions a rollback could still reach. */
  function Below(d: Disk): set<Version> {
    set v | v in d.versions && Pointer(d).Some? && v < Pointer(d).value
  }

  /**
   However many processes roll back at once, with targets read before locking: every switch goes
   strictly down among the retained versions, so a run of rollbacks has no more switches than there
   are retained versions below its start.
   */
  lemma {:induction false} RollbacksAreBounded(w: World, es: seq<Event>, rel: Catalogue)
    requires Inv(w, rel) && Runs(w, es, rel) && Heading(w, Down)
    requires Downward(w) && forall e <- es :: Only(Down, e)
    ensures Switches(Effects(w, es, rel)) + |Below(After(w, es, rel).disk)| <= |Below(w.disk)|
    decreases |es|
  {
    if es != [] {
      var e := es[0];
      var next := Step(w, e, rel);
      assert Only(Down, e);
      StepHeads(w, e, Down, rel);
      DownwardStep(w, e, rel);
      RollbacksAreBounded(next, es[1..], rel);
      assert Effects(w, es, rel)[1..] == Effects(next, es[1..], rel);
      if EventEffect(w, e).Switch? {
        var v := EventEffect(w, e).target;
        assert v in Below(w.disk) - Below(next.disk);
        assert Below(next.disk) <= Below(w.disk) - {v};
        SubsetSize(Below(next.disk), Below(w.disk) - {v});
      } else {
        assert Below(next.disk) == Below(w.disk);
      }
    }
  }

  lemma {:induction false} SubsetSize<T>(a: set<T>, b: set<T>)
    requires a <= b
    ensures |a| <= |b|
  {
    if a != {} {
      var x :| x in a;
      SubsetSize(a - {x}, b - {x});
    }
  }

  /** Rollbacks and recoveries insert no version. */
  ghost predicate Downward(w: World) {
    forall op <- w.todo :: !op.RenameStaged?
  }

  lemma {:induction false} DropAllRenamesNothing(staging: seq<Staged>)
    ensures forall op <- DropAllOps(staging) :: !op.RenameStaged?
  {
    if staging != [] {
      DropAllRenamesNothing(staging[1..]);
    }
  }

  ghost predicate RenamesNothing(ops: seq<Op>) {
    forall op <- ops :: !op.RenameStaged?
  }

  lemma RecoveryRenamesNothing(d: Disk)
    ensures RenamesNothing(RecoverLocked(d).ops)
  {
    DropAllRenamesNothing(d.staging);
  }

  lemma RollbackRenamesNothing(d: Disk, request: Retained)
    ensures RenamesNothing(ActivateExistingLocked(d, request).ops)
  {
  }

  lemma DownwardStep(w: World, e: Event, rel: Catalogue)
    requires Inv(w, rel) && Enabled(w, e, rel) && Downward(w) && Only(Down, e)
    ensures Downward(Step(w, e, rel)) && Step(w, e, rel).disk.versions == w.disk.versions
  {
    if e.Lock? {
      if e.request.Recovering? {
        RecoveryRenamesNothing(w.disk);
      } else if e.request.Rolling? {
        RollbackRenamesNothing(w.disk, e.request.retained);
      }
    } else if e.Do? {
      assert w.todo[0] in w.todo;
    }
  }
}
