/**
 The invariant of the activation protocol, the atomic register it implements, and the proof that
 every prefix of every locked operation keeps the one and refines the other.
 */
module Consistency {
  import opened Results
  import opened ManagedState
  import opened Plans

  /** The fixed catalogue of signed releases: one byte string per version. */
  type Catalogue = Version -> Signed

  ghost predicate GoodVersions(d: Disk, rel: Catalogue) {
    && (forall v <- d.versions :: VerifiedVersion(d, v, None) && d.versions[v].signed == rel(v))
    && (forall v <- d.versions, w <- d.versions :: d.versions[v].id == d.versions[w].id)
    && (d.install.Some? ==> forall v <- d.versions :: d.versions[v].id == d.install.value.id)
  }

  predicate IsRetained(d: Disk, v: Option<Version>) {
    v.Some? ==> v.value in d.versions
  }

  /** install.json says exactly that `active` is selected: absent before the first activation. */
  predicate Describes(d: Disk, active: Option<Version>) {
    match active
    case None => d.install.None?
    case Some(_) =>
      && d.install.Some?
      && ValidInstall(d.install.value)
      && d.install.value.active == active
      && IsRetained(d, d.install.value.previous)
  }

  /** A journal record is either not yet executed, or executed with install.json old or new. */
  predicate Journalled(d: Disk, pending: Pending) {
    && ValidPending(pending)
    && pending.to in d.versions
    && IsRetained(d, pending.from)
    && (|| (Pointer(d) == pending.from && Describes(d, pending.from))
        || (&& Pointer(d) == Some(pending.to)
            && (|| Describes(d, pending.from)
                || (Describes(d, Some(pending.to)) && d.install.value.previous == pending.from))))
  }

  ghost predicate Good(d: Disk, rel: Catalogue) {
    && GoodVersions(d, rel)
    && IsRetained(d, Pointer(d))
    && (match d.pending
        case None => Describes(d, Pointer(d))
        case Some(pending) => Journalled(d, pending))
    && (d.command.Foreign? ==> d.pending.None? && d.install.None?)
    && (d.install.Some? || d.pending.Some? || d.command.Selects? ==> d.root && d.lockFile)
    && (d.staging != [] || d.versions.Keys != {} ==> d.root)
  }

  // ---- The atomic register ----

  datatype Register = Register(
    active: Option<Version>, previous: Option<Version>, retained: map<Version, VersionDir>)

  /** The committed state: an executed journal record overrides install.json's `previous`. */
  function Previous(d: Disk): Option<Version> {
    if d.pending.Some? && Pointer(d) == Some(d.pending.value.to) then d.pending.value.from
    else if d.install.Some? then d.install.value.previous
    else None
  }

  function Abs(d: Disk): Register {
    Register(Pointer(d), Previous(d), d.versions)
  }

  datatype Effect = Stutter | Insert(version: Version, content: VersionDir) | Switch(target: Version)

  function EffectOf(d: Disk, op: Op): Effect {
    match op
    case RenameStaged(tx, v) =>
      if Renames(d, tx, v) then Insert(v, StagedContent(d.staging, tx).value) else Stutter
    case PutSelector(v) => Switch(v)
    case _ => Stutter
  }

  function RegisterNext(r: Register, e: Effect): Option<Register> {
    match e
    case Stutter => Some(r)
    case Insert(v, content) =>
      if v in r.retained then None else Some(r.(retained := r.retained[v := content]))
    case Switch(v) =>
      if v in r.retained && Some(v) != r.active then Some(Register(Some(v), r.active, r.retained)) else None
  }

  predicate Refines(d: Disk, op: Op) {
    RegisterNext(Abs(d), EffectOf(d, op)) == Some(Abs(Apply(d, op)))
  }

  /** Every prefix of `ops` leaves a good disk, and every operation refines the register. */
  ghost predicate PlanSafe(d: Disk, ops: seq<Op>, rel: Catalogue)
    decreases |ops|
  {
    && Good(d, rel)
    && (ops != [] ==> Refines(d, ops[0]) && PlanSafe(Apply(d, ops[0]), ops[1..], rel))
  }

  // ---- Composing safe plans ----

  lemma {:induction false} SafeConcat(d: Disk, a: seq<Op>, b: seq<Op>, rel: Catalogue)
    requires PlanSafe(d, a, rel)
    requires PlanSafe(ApplyAll(d, a), b, rel)
    ensures PlanSafe(d, a + b, rel)
    decreases |a|
  {
    if a == [] {
      assert a + b == b;
    } else {
      assert (a + b)[1..] == a[1..] + b;
      SafeConcat(Apply(d, a[0]), a[1..], b, rel);
    }
  }

  predicate Quiet(op: Op) {
    op.Mark? || op.SyncRoot? || op.SyncVersions? || op.SyncCommand? || op.SyncStaging?
  }

  lemma {:induction false} QuietSafe(d: Disk, ops: seq<Op>, rel: Catalogue)
    requires Good(d, rel)
    requires forall op <- ops :: Quiet(op)
    ensures PlanSafe(d, ops, rel) && ApplyAll(d, ops) == d
    decreases |ops|
  {
    if ops != [] {
      assert Quiet(ops[0]);
      assert Apply(d, ops[0]) == d;
      QuietSafe(d, ops[1..], rel);
    }
  }

  /** One change followed by quiet operations. */
  lemma {:induction false} ChangeSafe(d: Disk, op: Op, quiet: seq<Op>, rel: Catalogue)
    requires Good(d, rel) && Good(Apply(d, op), rel) && Refines(d, op)
    requires forall q <- quiet :: Quiet(q)
    ensures PlanSafe(d, [op] + quiet, rel) && ApplyAll(d, [op] + quiet) == Apply(d, op)
  {
    assert ([op] + quiet)[1..] == quiet;
    QuietSafe(Apply(d, op), quiet, rel);
  }

  lemma Then(d: Disk, a: seq<Op>, mid: Disk, b: seq<Op>, rel: Catalogue)
    requires PlanSafe(d, a, rel) && ApplyAll(d, a) == mid
    requires PlanSafe(mid, b, rel)
    ensures PlanSafe(d, a + b, rel) && ApplyAll(d, a + b) == ApplyAll(mid, b)
  {
    SafeConcat(d, a, b, rel);
    ApplyAllConcat(d, a, b);
  }

  // ---- The pieces of every plan ----

  lemma {:induction false} WithoutTxShrinks(staging: seq<Staged>, tx: Id)
    ensures forall s <- WithoutTx(staging, tx) :: s in staging && s.tx != tx
    ensures forall s <- staging :: s.tx != tx ==> s in WithoutTx(staging, tx)
  {
    if staging != [] {
      WithoutTxShrinks(staging[1..], tx);
    }
  }

  /** Dropping a listing that covers the staging area empties it and changes nothing else. */
  lemma {:induction false} DropAllSafe(d: Disk, listing: seq<Staged>, rel: Catalogue)
    requires Good(d, rel)
    requires forall s <- d.staging :: s in listing
    ensures PlanSafe(d, DropAllOps(listing), rel)
    ensures ApplyAll(d, DropAllOps(listing)) == d.(staging := [])
    decreases |listing|
  {
    var first := if d.staging == [] then None else Some(d.staging[0]);
    assert first.Some? ==> first.value in listing;
    if listing != [] {
      var op := DropStaged(listing[0].tx);
      var ops := DropAllOps(listing);
      assert ops == [op] + DropAllOps(listing[1..]);
      assert ops[0] == op && ops[1..] == DropAllOps(listing[1..]);
      WithoutTxShrinks(d.staging, listing[0].tx);
      DropAllSafe(Apply(d, op), listing[1..], rel);
    }
  }

  lemma CleanupSafe(d: Disk, rel: Catalogue)
    requires Good(d, rel)
    ensures PlanSafe(d, CleanupOps(d), rel)
    ensures ApplyAll(d, CleanupOps(d)) == d.(staging := [])
  {
    DropAllSafe(d, d.staging, rel);
    QuietSafe(d.(staging := []), [SyncStaging], rel);
    Then(d, DropAllOps(d.staging), d.(staging := []), [SyncStaging], rel);
  }

  lemma RemovePendingSafe(d: Disk, rel: Catalogue)
    requires Good(d, rel) && Describes(d, Pointer(d)) && Previous(d) == Previous(d.(pending := None))
    ensures PlanSafe(d, RemovePendingOps(), rel)
    ensures ApplyAll(d, RemovePendingOps()) == d.(pending := None)
  {
    assert RemovePendingOps() == [DropPending] + [Mark(PendingRemoved)];
    ChangeSafe(d, DropPending, [Mark(PendingRemoved)], rel);
  }

  /** Repairing or completing install.json for the version the pointer selects. */
  lemma WriteInstallSafe(d: Disk, state: Install, rel: Catalogue)
    requires Good(d, rel)
    requires Good(d.(install := Some(state)), rel)
    requires Previous(d) == Previous(d.(install := Some(state)))
    ensures PlanSafe(d, WriteInstallOps(state), rel)
    ensures ApplyAll(d, WriteInstallOps(state)) == d.(install := Some(state))
  {
    assert WriteInstallOps(state) == [PutInstall(state)] + [SyncRoot];
    ChangeSafe(d, PutInstall(state), [SyncRoot], rel);
  }

  /** The disk after the commit of an activation. */
  function Committed(d: Disk, from: Option<Version>, to: Version, id: Id): Disk {
    d.(command := Selects(to), install := Some(Install(true, Some(to), from, id)), pending := None)
  }

  ghost predicate ReadyToCommit(d: Disk, from: Option<Version>, to: Version, id: Id, rel: Catalogue) {
    && Good(d, rel) && d.lockFile
    && from == Pointer(d) && from != Some(to)
    && !d.command.Foreign?
    && Describes(d, from)
    && to in d.versions && d.versions[to].id == id
  }

  lemma CommitStaysGood(d: Disk, from: Option<Version>, to: Version, id: Id, txn: Id, rel: Catalogue)
    requires ReadyToCommit(d, from, to, id, rel)
    ensures var d1 := d.(pending := Some(Pending(true, from, to, txn)));
            var d2 := d1.(command := Selects(to));
            var d3 := d2.(install := Some(Install(true, Some(to), from, id)));
            Good(d1, rel) && Good(d2, rel) && Good(d3, rel) && Good(d3.(pending := None), rel)
  {
  }

  lemma CommitSafe(d: Disk, from: Option<Version>, to: Version, id: Id, txn: Id, rel: Catalogue)
    requires ReadyToCommit(d, from, to, id, rel)
    ensures PlanSafe(d, CommitOps(from, to, id, txn), rel)
    ensures ApplyAll(d, CommitOps(from, to, id, txn)) == Committed(d, from, to, id)
    ensures Good(Committed(d, from, to, id), rel)
  {
    var record := Pending(true, from, to, txn);
    var state := Install(true, Some(to), from, id);
    var d1 := d.(pending := Some(record));
    var d2 := d1.(command := Selects(to));
    var d3 := d2.(install := Some(state));
    var d4 := d3.(pending := None);
    CommitStaysGood(d, from, to, id, txn, rel);
    assert WritePendingOps(record) == [PutPending(record)] + [SyncRoot, Mark(PendingWritten)];
    ChangeSafe(d, PutPending(record), [SyncRoot, Mark(PendingWritten)], rel);
    assert SwitchOps(to) == [PutSelector(to)] + [SyncCommand, Mark(PointerSwitched)];
    ChangeSafe(d1, PutSelector(to), [SyncCommand, Mark(PointerSwitched)], rel);
    WriteInstallSafe(d2, state, rel);
    QuietSafe(d3, [Mark(InstallWritten)], rel);
    RemovePendingSafe(d3, rel);
    Then(d2, WriteInstallOps(state), d3, [Mark(InstallWritten)], rel);
    Then(d2, WriteInstallOps(state) + [Mark(InstallWritten)], d3, RemovePendingOps(), rel);
    Then(d1, SwitchOps(to), d2, WriteInstallOps(state) + [Mark(InstallWritten)] + RemovePendingOps(), rel);
    Then(d, WritePendingOps(record), d1,
         SwitchOps(to) + (WriteInstallOps(state) + [Mark(InstallWritten)] + RemovePendingOps()), rel);
  }
}
