/**
 Ownership of the stable Windows launcher.  The launcher is created once, during a first install,
 after a marker with its digest has been written into the staging transaction; later releases carry a
 launcher digest of their own but never replace the file.  Every operation runs under the lock, and a
 crash may cut it anywhere.

 Digests enter only through equality.  A version directory stands for its verified content, here the
 launcher digest it was signed with.
 */
module Launcher {
  import opened Results

  type Version = int
  type Digest = nat

  datatype File = File(digest: Digest, engine: bool)

  datatype Transaction = Transaction(marker: Option<Digest>)

  datatype Install = Install(active: Option<Version>, previous: Option<Version>, launcher: Digest)

  datatype Pending = Pending(from: Option<Version>, to: Version)

  datatype Disk = Disk(
    versions: map<Version, Digest>,
    staging: seq<Transaction>,
    pending: Option<Pending>,
    active: Option<Version>,
    command: Option<File>,
    install: Option<Install>)

  const EMPTY := Disk(map[], [], None, None, None, None)

  datatype Op =
    | CreateTx
    | WriteMarker(digest: Digest)
    | CreateLauncher(digest: Digest)
    | RenameVersion(version: Version, digest: Digest)
    | PutPending(record: Pending)
    | PutActive(version: Version)
    | PutInstall(state: Install)
    | DropPending
    | RemoveLauncher
    | DropTx

  /** The engine's transaction is the last one, cleanup drops the first; creating a launcher never
      replaces a file. */
  function Apply(d: Disk, op: Op): Disk {
    match op
    case CreateTx => d.(staging := d.staging + [Transaction(None)])
    case WriteMarker(g) =>
      if d.staging == [] then d else d.(staging := d.staging[..|d.staging| - 1] + [Transaction(Some(g))])
    case CreateLauncher(g) => if d.command.Some? then d else d.(command := Some(File(g, true)))
    case RenameVersion(v, g) => if v in d.versions then d else d.(versions := d.versions[v := g])
    case PutPending(record) => d.(pending := Some(record))
    case PutActive(v) => d.(active := Some(v))
    case PutInstall(state) => d.(install := Some(state))
    case DropPending => d.(pending := None)
    case RemoveLauncher => d.(command := None)
    case DropTx => if d.staging == [] then d else d.(staging := d.staging[1..])
  }

  function ApplyAll(d: Disk, ops: seq<Op>): Disk
    decreases |ops|
  {
    if ops == [] then d else ApplyAll(Apply(d, ops[0]), ops[1..])
  }

  /** What an operation does, and whether it then succeeds. */
  datatype Outcome = Outcome(ops: seq<Op>, ok: bool)

  const REFUSED := Outcome([], false)

  // ---- Checks ----

  /** The installed launcher has this digest. */
  predicate Matches(d: Disk, g: Digest) {
    d.command.Some? && d.command.value.digest == g
  }

  predicate Retains(d: Disk, g: Digest) {
    exists v :: v in d.versions && d.versions[v] == g
  }

  /** Some retained version proves that the installed launcher is ours. */
  predicate RetainedOwnership(d: Disk) {
    d.command.Some? && Retains(d, d.command.value.digest)
  }

  predicate HasMarker(d: Disk) {
    exists i :: 0 <= i < |d.staging| && d.staging[i].marker.Some?
  }

  predicate CommandOwned(d: Disk) {
    if d.command.None? then d.active.None? || d.install.None?
    else if d.active.None? then d.install.None? && RetainedOwnership(d)
    else
      && d.install.Some? && d.install.value.active == d.active && d.active.value in d.versions
      && Matches(d, d.install.value.launcher)
  }

  // ---- Operations ----

  /** Drop every transaction; with `orphan`, first remove a launcher that only its marker accounts for. */
  function CleanupFrom(d: Disk, orphan: bool): Outcome
    decreases |d.staging|
  {
    if d.staging == [] then Outcome([], true)
    else
      var marker := d.staging[0].marker;
      if orphan && marker.Some? && d.command.Some? && d.command.value.digest != marker.value then REFUSED
      else
        var remove := orphan && marker.Some? && d.command.Some? && !Retains(d, marker.value);
        var after := (if remove then d.(command := None) else d).(staging := d.staging[1..]);
        var rest := CleanupFrom(after, orphan);
        Outcome((if remove then [RemoveLauncher] else []) + [DropTx] + rest.ops, rest.ok)
  }

  function Cleanup(d: Disk): Outcome {
    CleanupFrom(d, d.active.None? && d.install.None?)
  }

  function Then(d: Disk, ops: seq<Op>, cleanup: bool): Outcome {
    if !cleanup then Outcome(ops, true)
    else
      var rest := Cleanup(ApplyAll(d, ops));
      Outcome(ops + rest.ops, rest.ok)
  }

  /** Ownership for a document to be written: what the old one says, else what the version says; the
      launcher has to match. */
  function OwnershipFor(d: Disk, v: Version, prior: Option<Digest>): Option<Digest>
    requires v in d.versions
  {
    var g := if prior.Some? then prior.value else d.versions[v];
    if Matches(d, g) then Some(g) else None
  }

  function PriorLauncher(install: Option<Install>): Option<Digest> {
    if install.Some? then Some(install.value.launcher) else None
  }

  function Recover(d: Disk): Outcome {
    if d.pending.Some? then
      var p := d.pending.value;
      if d.active == Some(p.to) then
        if p.to !in d.versions then REFUSED
        else
          var launcher := OwnershipFor(d, p.to, PriorLauncher(d.install));
          if launcher.None? then REFUSED
          else Then(d, [PutInstall(Install(Some(p.to), p.from, launcher.value)), DropPending], true)
      else if d.active == p.from then Then(d, [DropPending], true)
      else REFUSED
    else if d.active.None? then
      if d.install.Some? && d.install.value.active.Some? then REFUSED else Then(d, [], HasMarker(d))
    else
      var v := d.active.value;
      if v !in d.versions then REFUSED
      else if d.install.Some? && d.install.value.active == Some(v) && Matches(d, d.install.value.launcher)
          then Then(d, [], true)
      else
        var launcher := OwnershipFor(d, v, PriorLauncher(d.install));
        if launcher.None? then REFUSED
        else
          var previous :=
            if d.install.Some? && d.install.value.previous.Some? && d.install.value.previous != Some(v)
               && d.install.value.previous.value in d.versions
            then d.install.value.previous else None;
          Then(d, [PutInstall(Install(Some(v), previous, launcher.value))], true)
  }

  /** Journal, selector, document, journal removal.  Ownership is decided after the selector is switched. */
  function Commit(d: Disk, to: Version, prior: Option<Digest>, tx: bool): Outcome
    requires to in d.versions
  {
    var begun := [PutPending(Pending(d.active, to)), PutActive(to)];
    var launcher := OwnershipFor(d, to, prior);
    if launcher.None? then Outcome(begun, false)
    else
      Outcome(begun + [PutInstall(Install(Some(to), d.active, launcher.value)), DropPending]
          + (if tx then [DropTx] else []), true)
  }

  /** A released version with the digest of the launcher it was signed with. */
  datatype Request =
    | Recovery
    | Download(version: Version, digest: Digest, selfTest: bool)
    | Rollback(target: Version, selfTest: bool)

  /** Staging of a version that is not retained yet. */
  function Stage(d: Disk, v: Version, g: Digest, managed: bool): Outcome {
    if d.command.None? then
      if managed then Outcome([CreateTx], false)
      else Outcome([CreateTx, WriteMarker(g), CreateLauncher(g), RenameVersion(v, g)], true)
    else if managed && (if d.install.Some? then Matches(d, d.install.value.launcher) else RetainedOwnership(d))
    then Outcome([CreateTx, RenameVersion(v, g)], true)
    else Outcome([CreateTx], false)
  }

  /** After cleanup; `retained` is the launcher a retained version accounted for before it. */
  function ActivateClean(d: Disk, v: Version, g: Digest, selfTest: bool, retained: Option<Digest>): Outcome {
    var prior := if d.install.Some? then PriorLauncher(d.install) else retained;
    if !CommandOwned(d) then REFUSED
    else if v in d.versions then
      if d.versions[v] != g || OwnershipFor(d, v, prior).None? || !selfTest then REFUSED
      else Commit(d, v, prior, false)
    else
      var staged := Stage(d, v, g, d.install.Some? || retained.Some?);
      if !staged.ok || !selfTest then Outcome(staged.ops, false)
      else
        var ready := ApplyAll(d, staged.ops);
        if v !in ready.versions then Outcome(staged.ops, false)
        else
          var commit := Commit(ready, v, prior, true);
          Outcome(staged.ops + commit.ops, commit.ok)
  }

  function ActivateDownload(d: Disk, v: Version, g: Digest, selfTest: bool): Outcome {
    if d.install.Some? && d.active.Some? && v <= d.active.value then
      Outcome([], v == d.active.value && v in d.versions && d.versions[v] == g && CommandOwned(d))
    else
      var retained := if d.install.None? && RetainedOwnership(d) then Some(d.command.value.digest) else None;
      var cleaning := if d.active.Some? || d.command.None? || d.install.None? then Cleanup(d) else Outcome([], true);
      if !cleaning.ok then cleaning
      else
        var rest := ActivateClean(ApplyAll(d, cleaning.ops), v, g, selfTest, retained);
        Outcome(cleaning.ops + rest.ops, rest.ok)
  }

  function ActivateExisting(d: Disk, target: Version, selfTest: bool): Outcome {
    if d.install.None? || d.active.None? || target >= d.active.value then REFUSED
    else if !CommandOwned(d) || target !in d.versions || !selfTest then REFUSED
    else Commit(d, target, PriorLauncher(d.install), false)
  }

  function Plan(d: Disk, request: Request): Outcome {
    match request
    case Recovery => Recover(d)
    case Download(v, g, selfTest) => ActivateDownload(d, v, g, selfTest)
    case Rollback(target, selfTest) => ActivateExisting(d, target, selfTest)
  }

  // ---- Runs ----

  /** The disk and what the lock holder still has to do. */
  datatype World = World(disk: Disk, holder: Option<seq<Op>>)

  datatype Event = Lock(request: Request) | Step | Crash

  function Next(w: World, e: Event): Option<World> {
    match e
    case Lock(request) => if w.holder.Some? then None else Some(w.(holder := Some(Plan(w.disk, request).ops)))
    case Step =>
      if w.holder.None? then None
      else if w.holder.value == [] then Some(w.(holder := None))
      else Some(World(Apply(w.disk, w.holder.value[0]), Some(w.holder.value[1..])))
    case Crash => Some(w.(holder := None))
  }

  function Run(w: World, events: seq<Event>): Option<World>
    decreases |events|
  {
    if events == [] then Some(w)
    else
      var next := Next(w, events[0]);
      if next.None? then None else Run(next.value, events[1..])
  }

  // ---- The invariant ----

  predicate Untouched(d: Disk) {
    d.versions == map[] && d.active.None? && d.pending.None? && d.install.None?
  }

  /** Something on the disk says that the launcher is ours. */
  ghost predicate Accounted(d: Disk) {
    d.command.Some? && d.command.value.engine ==>
      || (exists i :: 0 <= i < |d.staging| && d.staging[i].marker == Some(d.command.value.digest))
      || Retains(d, d.command.value.digest)
      || (d.install.Some? && d.install.value.launcher == d.command.value.digest)
  }

  ghost predicate LauncherSound(d: Disk) {
    && (d.command.None? ==> Untouched(d))
    && (d.command.Some? && !d.command.value.engine ==> Untouched(d) && d.staging == [])
    && (forall i :: 0 <= i < |d.staging| && d.staging[i].marker.Some? && d.command.Some?
                    ==> d.staging[i].marker.value == d.command.value.digest)
    && (d.install.None? && d.versions != map[] ==> RetainedOwnership(d))
    && Accounted(d)
  }

  ghost predicate SelectionSound(d: Disk) {
    && (d.active.Some? ==> d.active.value in d.versions)
    && (d.install.Some? ==> d.active.Some? && d.install.value.active.Some? && Matches(d, d.install.value.launcher))
    && (d.pending.None? && d.active.Some? ==> d.install.Some? && d.install.value.active == d.active)
    && (d.pending.Some? ==>
          var p := d.pending.value;
          && (d.active == p.from || d.active == Some(p.to)) && p.to in d.versions && p.from != Some(p.to)
          && (p.from.Some? ==> d.install.Some?)
          && (d.active == p.from && p.from.Some? ==> d.install.value.active == p.from))
  }

  ghost predicate Sound(d: Disk) {
    LauncherSound(d) && SelectionSound(d)
  }

  /** The plan may be cut anywhere. */
  ghost predicate Safe(d: Disk, ops: seq<Op>)
    decreases |ops|
  {
    Sound(d) && (ops == [] || Safe(Apply(d, ops[0]), ops[1..]))
  }

  lemma {:induction false} SafeConcat(d: Disk, a: seq<Op>, b: seq<Op>)
    requires Safe(d, a) && Safe(ApplyAll(d, a), b)
    ensures Safe(d, a + b)
    decreases |a|
  {
    if a == [] {
      assert a + b == b;
    } else {
      assert (a + b)[0] == a[0] && (a + b)[1..] == a[1..] + b;
      SafeConcat(Apply(d, a[0]), a[1..], b);
    }
  }

  lemma {:induction false} ApplyAllConcat(d: Disk, a: seq<Op>, b: seq<Op>)
    ensures ApplyAll(d, a + b) == ApplyAll(ApplyAll(d, a), b)
    decreases |a|
  {
    if a == [] {
      assert a + b == b;
    } else {
      assert (a + b)[0] == a[0] && (a + b)[1..] == a[1..] + b;
      ApplyAllConcat(Apply(d, a[0]), a[1..], b);
    }
  }

  lemma {:induction false} SafeEnd(d: Disk, ops: seq<Op>)
    requires Safe(d, ops)
    ensures Sound(ApplyAll(d, ops))
    decreases |ops|
  {
    if ops != [] {
      SafeEnd(Apply(d, ops[0]), ops[1..]);
    }
  }

  // ---- Cleanup ----

  predicate Orphan(d: Disk) {
    d.active.None? && d.install.None?
  }

  function WithoutFirst(d: Disk): Disk
    requires d.staging != []
  {
    d.(staging := d.staging[1..])
  }

  /** A launcher is removed only on a digest match, only if no version retains it, and while its marker
      is still there; every other transaction can simply go. */
  lemma FirstTransactionGoes(d: Disk, orphan: bool)
    requires Sound(d) && orphan == Orphan(d) && d.staging != []
    ensures var marker := d.staging[0].marker;
            var remove := orphan && marker.Some? && d.command.Some? && !Retains(d, marker.value);
            && !(orphan && marker.Some? && d.command.Some? && d.command.value.digest != marker.value)
            && (remove ==>
                  && Matches(d, marker.value)
                  && Sound(d.(command := None)) && Sound(WithoutFirst(d.(command := None))))
            && (!remove ==> Sound(WithoutFirst(d)))
  {
    var marker := d.staging[0].marker;
    if orphan && marker.Some? && d.command.Some? && !Retains(d, marker.value) {
      assert d.versions == map[];
    } else if d.command.Some? && d.command.value.engine {
      assert d.install.None? && d.versions == map[] ==> orphan;
    }
  }

  /** Cleanup of a sound disk succeeds, empties staging and at most removes the launcher. */
  lemma {:induction false} CleanupSafe(d: Disk, orphan: bool)
    requires Sound(d) && orphan == Orphan(d)
    ensures var c := CleanupFrom(d, orphan);
            && c.ok && Safe(d, c.ops)
            && (ApplyAll(d, c.ops) == d.(staging := []) || (orphan && ApplyAll(d, c.ops)
                == d.(staging := [], command := None)))
    decreases |d.staging|
  {
    if d.staging == [] {
      return;
    }
    var marker := d.staging[0].marker;
    var remove := orphan && marker.Some? && d.command.Some? && !Retains(d, marker.value);
    FirstTransactionGoes(d, orphan);
    var after := (if remove then d.(command := None) else d).(staging := d.staging[1..]);
    CleanupSafe(after, orphan);
    var rest := CleanupFrom(after, orphan).ops;
    var d1 := if remove then d.(command := None) else d;
    assert Apply(d1, DropTx) == after;
    SafeCons(d1, DropTx, rest);
    if remove {
      SafeCons(d, RemoveLauncher, [DropTx] + rest);
      assert [RemoveLauncher] + ([DropTx] + rest) == [RemoveLauncher] + [DropTx] + rest;
    } else {
      assert [] + [DropTx] + rest == [DropTx] + rest;
    }
  }

  lemma ThenSafe(d: Disk, ops: seq<Op>, cleanup: bool)
    requires Safe(d, ops)
    ensures Then(d, ops, cleanup).ok && Safe(d, Then(d, ops, cleanup).ops)
  {
    SafeEnd(d, ops);
    if cleanup {
      var mid := ApplyAll(d, ops);
      CleanupSafe(mid, Orphan(mid));
      SafeConcat(d, ops, Cleanup(mid).ops);
    }
  }

  /** The cleanup loop, as it works on the directory. */
  class Layout {
    var disk: Disk

    constructor (disk: Disk)
      ensures this.disk == disk
    {
      this.disk := disk;
    }

    method CleanupStaging() returns (ok: bool)
      modifies this
      ensures ok == Cleanup(old(disk)).ok && disk == ApplyAll(old(disk), Cleanup(old(disk)).ops)
    {
      var removeOrphanLauncher := disk.active.None? && disk.install.None?;
      ghost var whole := Cleanup(disk);
      while disk.staging != []
        invariant CleanupFrom(disk, removeOrphanLauncher).ok == whole.ok
        invariant ApplyAll(disk, CleanupFrom(disk, removeOrphanLauncher).ops) == ApplyAll(old(disk), whole.ops)
        decreases |disk.staging|
      {
        ghost var before := disk;
        var marker := disk.staging[0].marker;
        if removeOrphanLauncher && marker.Some? {
          if disk.command.Some? {
            if disk.command.value.digest != marker.value {
              return false;
            }
            if !Retains(disk, marker.value) {
              disk := Apply(disk, RemoveLauncher);
            }
          }
        }
        disk := Apply(disk, DropTx);
        CleanupTurn(before, removeOrphanLauncher);
      }
      ok := true;
    }
  }

  /** One turn of the loop, in the order it changes the disk. */
  lemma CleanupTurn(d: Disk, orphan: bool)
    requires d.staging != []
    ensures var marker := d.staging[0].marker;
            var found := orphan && marker.Some? && d.command.Some?;
            var after := (if found && !Retains(d, marker.value) then d.(command := None)
                else d).(staging := d.staging[1..]);
            !(found && d.command.value.digest != marker.value)
            ==> (CleanupFrom(d, orphan).ok == CleanupFrom(after, orphan).ok
                && ApplyAll(d, CleanupFrom(d, orphan).ops) == ApplyAll(after, CleanupFrom(after, orphan).ops))
  {
    var marker := d.staging[0].marker;
    var remove := orphan && marker.Some? && d.command.Some? && !Retains(d, marker.value);
    var after := (if remove then d.(command := None) else d).(staging := d.staging[1..]);
    var rest := CleanupFrom(after, orphan).ops;
    var d1 := if remove then Apply(d, RemoveLauncher) else d;
    assert Apply(d1, DropTx) == after;
    ApplyCons(d1, DropTx, rest);
    ApplyCons(d, RemoveLauncher, [DropTx] + rest);
    assert [RemoveLauncher] + ([DropTx] + rest) == [RemoveLauncher] + [DropTx] + rest;
    assert [] + [DropTx] + rest == [DropTx] + rest;
  }

  lemma ApplyCons(d: Disk, op: Op, rest: seq<Op>)
    ensures ApplyAll(d, [op] + rest) == ApplyAll(Apply(d, op), rest)
  {
    assert ([op] + rest)[0] == op && ([op] + rest)[1..] == rest;
  }

  /** A removal is justified by the marker still in place: its digest is the launcher's, no version
      retains it, and nothing is active or recorded. */
  ghost predicate JustRemoval(d: Disk) {
    && d.staging != [] && d.staging[0].marker.Some? && Matches(d, d.staging[0].marker.value)
    && !Retains(d, d.staging[0].marker.value) && Orphan(d)
  }

  ghost predicate Justified(d: Disk, ops: seq<Op>)
    decreases |ops|
  {
    ops == [] || ((ops[0].RemoveLauncher? ==> JustRemoval(d)) && Justified(Apply(d, ops[0]), ops[1..]))
  }

  /** On any disk, reachable or not, cleanup removes a launcher only with justification. */
  lemma {:induction false} CleanupIsJustified(d: Disk, orphan: bool)
    requires orphan == Orphan(d)
    ensures Justified(d, CleanupFrom(d, orphan).ops)
    decreases |d.staging|
  {
    if d.staging == [] {
      return;
    }
    var marker := d.staging[0].marker;
    if orphan && marker.Some? && d.command.Some? && d.command.value.digest != marker.value {
      return;
    }
    var remove := orphan && marker.Some? && d.command.Some? && !Retains(d, marker.value);
    var after := (if remove then d.(command := None) else d).(staging := d.staging[1..]);
    CleanupIsJustified(after, orphan);
    var rest := CleanupFrom(after, orphan).ops;
    var d1 := if remove then Apply(d, RemoveLauncher) else d;
    assert Apply(d1, DropTx) == after;
    assert ([DropTx] + rest)[1..] == rest;
    assert Justified(d1, [DropTx] + rest);
    if remove {
      var ops := [RemoveLauncher] + [DropTx] + rest;
      assert ops[0] == RemoveLauncher && ops[1..] == [DropTx] + rest;
    } else {
      assert [] + [DropTx] + rest == [DropTx] + rest;
    }
  }

  // ---- Recovery ----

  /** The one way recovery fails: the selector was switched during a first install, to a release with
      another launcher than the one installed, and install.json was not written any more. */
  predicate Stuck(d: Disk) {
    d.install.None? && d.active.Some? && d.active.value in d.versions && !Matches(d, d.versions[d.active.value])
  }

  lemma OneOp(d: Disk, op: Op)
    requires Sound(d) && Sound(Apply(d, op))
    ensures Safe(d, [op])
  {
    assert [op][1..] == [];
  }

  lemma TwoOps(d: Disk, a: Op, b: Op)
    requires Sound(d) && Sound(Apply(d, a)) && Sound(Apply(Apply(d, a), b))
    ensures Safe(d, [a, b]) && ApplyAll(d, [a, b]) == Apply(Apply(d, a), b)
  {
    assert [a, b][1..] == [b] && [b][1..] == [];
    assert ApplyAll(d, [a, b]) == ApplyAll(Apply(d, a), [b]);
  }

  /** Recovery of a reachable disk succeeds exactly when it is not stuck, and keeps the disk sound. */
  lemma RecoverExactly(d: Disk)
    requires Sound(d)
    ensures Recover(d).ok <==> !Stuck(d)
    ensures Safe(d, Recover(d).ops)
  {
    if d.pending.Some? {
      var p := d.pending.value;
      if d.active == Some(p.to) {
        var launcher := OwnershipFor(d, p.to, PriorLauncher(d.install));
        if launcher.Some? {
          TwoOps(d, PutInstall(Install(Some(p.to), p.from, launcher.value)), DropPending);
          ThenSafe(d, [PutInstall(Install(Some(p.to), p.from, launcher.value)), DropPending], true);
        }
      } else {
        OneOp(d, DropPending);
        ThenSafe(d, [DropPending], true);
      }
    } else {
      ThenSafe(d, [], true);
    }
  }

  // ---- Activation ----

  /** The situation in which the journal is written. */
  ghost predicate Committable(d: Disk, to: Version, prior: Option<Digest>) {
    && Sound(d) && to in d.versions && d.command.Some? && d.active != Some(to)
    && (d.install.Some? ==> prior == PriorLauncher(d.install))
    && (d.active.Some? ==> d.install.Some? && d.install.value.active == d.active)
  }

  lemma {:induction false} SafeCons(d: Disk, op: Op, rest: seq<Op>)
    requires Sound(d) && Safe(Apply(d, op), rest)
    ensures Safe(d, [op] + rest) && ApplyAll(d, [op] + rest) == ApplyAll(Apply(d, op), rest)
  {
    assert ([op] + rest)[0] == op && ([op] + rest)[1..] == rest;
  }

  lemma FinishSafe(d: Disk, state: Install, tx: bool)
    requires Sound(d) && d.pending.Some? && d.active == state.active == Some(d.pending.value.to)
    requires Matches(d, state.launcher)
    ensures var ops := [PutInstall(state), DropPending] + (if tx then [DropTx] else []);
            Safe(d, ops)
            && ApplyAll(d, ops) == d.(install := Some(state), pending := None,
                                      staging := if tx && d.staging != [] then d.staging[1..] else d.staging)
  {
    var d1 := Apply(d, PutInstall(state));
    var d2 := Apply(d1, DropPending);
    assert Sound(d1) && Sound(d2);
    var last: seq<Op> := if tx then [DropTx] else [];
    if tx {
      assert Sound(Apply(d2, DropTx));
      OneOp(d2, DropTx);
    }
    SafeCons(d1, DropPending, last);
    SafeCons(d, PutInstall(state), [DropPending] + last);
    assert [PutInstall(state), DropPending] + last == [PutInstall(state)] + ([DropPending] + last);
  }

  lemma CommitSafe(d: Disk, to: Version, prior: Option<Digest>, tx: bool)
    requires Committable(d, to, prior)
    ensures Safe(d, Commit(d, to, prior, tx).ops)
    ensures Commit(d, to, prior, tx).ok <==> OwnershipFor(d, to, prior).Some?
    ensures Commit(d, to, prior, tx).ok ==>
              var launcher := OwnershipFor(d, to, prior).value;
              ApplyAll(d, Commit(d, to, prior, tx).ops)
              == d.(active := Some(to), pending := None, install := Some(Install(Some(to), d.active, launcher)),
                    staging := if tx && d.staging != [] then d.staging[1..] else d.staging)
  {
    var record := Pending(d.active, to);
    var d1 := Apply(d, PutPending(record));
    var d2 := Apply(d1, PutActive(to));
    assert Sound(d1) && Sound(d2);
    TwoOps(d, PutPending(record), PutActive(to));
    var launcher := OwnershipFor(d, to, prior);
    if launcher.Some? {
      var state := Install(Some(to), d.active, launcher.value);
      var rest := [PutInstall(state), DropPending] + (if tx then [DropTx] else []);
      FinishSafe(d2, state, tx);
      SafeConcat(d, [PutPending(record), PutActive(to)], rest);
      ApplyAllConcat(d, [PutPending(record), PutActive(to)], rest);
      assert Commit(d, to, prior, tx).ops == [PutPending(record), PutActive(to)] + rest;
    }
  }

  /** A clean disk on which the command is owned, as activation finds it. */
  ghost predicate ReadyToStage(d: Disk, v: Version) {
    Sound(d) && d.staging == [] && CommandOwned(d) && v !in d.versions
  }

  lemma FirstLauncher(d: Disk, v: Version, g: Digest)
    requires ReadyToStage(d, v) && d.command.None?
    ensures Safe(d, [CreateTx, WriteMarker(g), CreateLauncher(g), RenameVersion(v, g)])
    ensures ApplyAll(d, [CreateTx, WriteMarker(g), CreateLauncher(g), RenameVersion(v, g)])
         == d.(staging := [Transaction(Some(g))], command := Some(File(g, true)), versions := d.versions[v := g])
  {
    var d1 := d.(staging := [Transaction(None)]);
    var d2 := d.(staging := [Transaction(Some(g))]);
    MarkedSafe(d, v, g);
    assert Apply(d, CreateTx) == d1 && Apply(d1, WriteMarker(g)) == d2;
    var two := [CreateLauncher(g), RenameVersion(v, g)];
    SafeCons(d1, WriteMarker(g), two);
    SafeCons(d, CreateTx, [WriteMarker(g)] + two);
    assert [CreateTx] + ([WriteMarker(g)] + two) == [CreateTx, WriteMarker(g), CreateLauncher(g), RenameVersion(v, g)];
  }

  /** With its marker staged, the launcher may appear, and then the version that carries its digest. */
  lemma MarkedSafe(d: Disk, v: Version, g: Digest)
    requires ReadyToStage(d, v) && d.command.None?
    ensures var d2 := d.(staging := [Transaction(Some(g))]);
            var two := [CreateLauncher(g), RenameVersion(v, g)];
            && Sound(d.(staging := [Transaction(None)])) && Sound(d2) && Safe(d2, two)
            && ApplyAll(d2, two) == d2.(command := Some(File(g, true)), versions := d.versions[v := g])
  {
    var d2 := d.(staging := [Transaction(Some(g))]);
    var d3 := d2.(command := Some(File(g, true)));
    var d4 := d3.(versions := d.versions[v := g]);
    assert Apply(d2, CreateLauncher(g)) == d3 && Apply(d3, RenameVersion(v, g)) == d4;
    assert d3.staging[0].marker == Some(g);
    assert v in d4.versions && d4.versions[v] == g;
    TwoOps(d2, CreateLauncher(g), RenameVersion(v, g));
  }

  /** Later versions leave the launcher alone. */
  lemma BesideLauncher(d: Disk, v: Version, g: Digest)
    requires ReadyToStage(d, v) && d.command.Some?
    ensures Safe(d, [CreateTx]) && Safe(d, [CreateTx, RenameVersion(v, g)])
    ensures ApplyAll(d, [CreateTx, RenameVersion(v, g)])
         == d.(staging := [Transaction(None)], versions := d.versions[v := g])
  {
    var d1 := d.(staging := [Transaction(None)]);
    var d2 := d1.(versions := d.versions[v := g]);
    assert Apply(d, CreateTx) == d1 && Apply(d1, RenameVersion(v, g)) == d2;
    if d.install.None? {
      var w :| w in d.versions && d.versions[w] == d.command.value.digest;
      assert w in d2.versions && d2.versions[w] == d.command.value.digest;
    } else if Retains(d, d.command.value.digest) {
      var w :| w in d.versions && d.versions[w] == d.command.value.digest;
      assert w in d2.versions && d2.versions[w] == d.command.value.digest;
    }
    assert Sound(d1) && Sound(d2);
    OneOp(d, CreateTx);
    TwoOps(d, CreateTx, RenameVersion(v, g));
  }

  lemma StageSafe(d: Disk, v: Version, g: Digest, managed: bool)
    requires ReadyToStage(d, v)
    ensures Safe(d, Stage(d, v, g, managed).ops)
    ensures Stage(d, v, g, managed).ok ==> Staged(d, v, g, ApplyAll(d, Stage(d, v, g, managed).ops))
  {
    if d.command.None? {
      FirstLauncher(d, v, g);
      assert Sound(Apply(d, CreateTx));
      OneOp(d, CreateTx);
    } else {
      BesideLauncher(d, v, g);
    }
  }

  /** The version is in place, the launcher as it was or created for it. */
  predicate Staged(d: Disk, v: Version, g: Digest, end: Disk) {
    && end.versions == d.versions[v := g] && |end.staging| == 1
    && end.active == d.active && end.install == d.install && end.pending == d.pending
    && end.command == (if d.command.None? then Some(File(g, true)) else d.command)
  }

  /** Activation on a clean disk: what it does is safe, and if it succeeds the version is active. */
  lemma ActivateCleanSafe(d: Disk, v: Version, g: Digest, selfTest: bool, retained: Option<Digest>)
    requires Sound(d) && d.staging == [] && d.active != Some(v)
    requires retained.Some? ==> d.install.None? && Matches(d, retained.value)
    requires retained.None? && d.install.None? ==> !RetainedOwnership(d)
    ensures Safe(d, ActivateClean(d, v, g, selfTest, retained).ops)
    ensures ActivateClean(d, v, g, selfTest, retained).ok
        ==> Activated(ApplyAll(d, ActivateClean(d, v, g, selfTest, retained).ops), v)
    ensures ActivateClean(d, v, g, selfTest, retained).ok
       <==> CommandOwned(d) && selfTest && (v in d.versions ==> d.versions[v] == g)
  {
    var prior := if d.install.Some? then PriorLauncher(d.install) else retained;
    if !CommandOwned(d) {
      return;
    }
    if v in d.versions {
      if d.versions[v] == g && selfTest {
        CommitSafe(d, v, prior, false);
      }
      return;
    }
    var managed := d.install.Some? || retained.Some?;
    var staged := Stage(d, v, g, managed);
    StageSafe(d, v, g, managed);
    if staged.ok && selfTest {
      var ready := ApplyAll(d, staged.ops);
      SafeEnd(d, staged.ops);
      CommitSafe(ready, v, prior, true);
      SafeConcat(d, staged.ops, Commit(ready, v, prior, true).ops);
      ApplyAllConcat(d, staged.ops, Commit(ready, v, prior, true).ops);
    }
  }

  /** Pointer and document agree, nothing is pending or staged. */
  predicate Activated(d: Disk, v: Version) {
    && d.active == Some(v) && d.pending.None? && d.staging == []
    && d.install.Some? && d.install.value.active == Some(v) && Matches(d, d.install.value.launcher)
  }

  lemma DownloadSafe(d: Disk, v: Version, g: Digest, selfTest: bool)
    requires Sound(d)
    ensures Safe(d, ActivateDownload(d, v, g, selfTest).ops)
    ensures ActivateDownload(d, v, g, selfTest).ok && !(d.install.Some? && d.active.Some? && v <= d.active.value)
        ==> Activated(ApplyAll(d, ActivateDownload(d, v, g, selfTest).ops), v)
    ensures d.pending.None? && (d.command.Some? ==> d.command.value.engine) && selfTest
            && (v in d.versions ==> d.versions[v] == g) && (d.active.Some? ==> v >= d.active.value)
        ==> ActivateDownload(d, v, g, selfTest).ok
  {
    if d.install.Some? && d.active.Some? && v <= d.active.value {
      return;
    }
    var retained := if d.install.None? && RetainedOwnership(d) then Some(d.command.value.digest) else None;
    var cleaning := Cleanup(d);
    CleanupSafe(d, Orphan(d));
    SafeEnd(d, cleaning.ops);
    var clean := ApplyAll(d, cleaning.ops);
    if clean.active == Some(v) {
      assert d.install.None?;
      SafeConcat(d, cleaning.ops, []);
      assert cleaning.ops + [] == cleaning.ops;
    } else {
      ActivateCleanSafe(clean, v, g, selfTest, retained);
      var rest := ActivateClean(clean, v, g, selfTest, retained);
      SafeConcat(d, cleaning.ops, rest.ops);
      ApplyAllConcat(d, cleaning.ops, rest.ops);
      if clean.command.Some? && clean.command.value.engine && clean.install.None? && clean.active.None? {
        AccountedWithoutStaging(clean);
      }
    }
  }

  /** Without staging and document an engine-made launcher is proved by a retained version. */
  lemma AccountedWithoutStaging(d: Disk)
    requires Sound(d) && d.staging == [] && d.install.None? && d.command.Some? && d.command.value.engine
    ensures RetainedOwnership(d)
  {
  }

  /** A rollback switches to a lower retained version and leaves the launcher and its owner alone. */
  lemma RollbackLands(d: Disk, target: Version, selfTest: bool)
    requires Sound(d) && ActivateExisting(d, target, selfTest).ok
    ensures Safe(d, ActivateExisting(d, target, selfTest).ops)
    ensures d.active.Some? && target < d.active.value && target in d.versions
    ensures ApplyAll(d, ActivateExisting(d, target, selfTest).ops)
         == d.(active := Some(target), pending := None,
               install := Some(Install(Some(target), d.active, d.install.value.launcher)))
  {
    CommitSafe(d, target, PriorLauncher(d.install), false);
  }

  lemma PlanSafe(d: Disk, request: Request)
    requires Sound(d)
    ensures Safe(d, Plan(d, request).ops)
  {
    match request
    case Recovery => RecoverExactly(d);
    case Download(v, g, selfTest) => DownloadSafe(d, v, g, selfTest);
    case Rollback(target, selfTest) =>
      if ActivateExisting(d, target, selfTest) != REFUSED {
        CommitSafe(d, target, PriorLauncher(d.install), false);
      }
  }

  // ---- Every run ----

  ghost predicate WorldSound(w: World) {
    Sound(w.disk) && (w.holder.Some? ==> Safe(w.disk, w.holder.value))
  }

  lemma StepKeeps(w: World, e: Event)
    requires WorldSound(w) && Next(w, e).Some?
    ensures WorldSound(Next(w, e).value)
  {
    match e
    case Lock(request) => PlanSafe(w.disk, request);
    case Step =>
      if w.holder.value != [] {
        assert Safe(Apply(w.disk, w.holder.value[0]), w.holder.value[1..]);
      }
    case Crash =>
  }

  lemma {:induction false} RunKeeps(w: World, events: seq<Event>)
    requires WorldSound(w) && Run(w, events).Some?
    ensures WorldSound(Run(w, events).value)
    decreases |events|
  {
    if events != [] {
      StepKeeps(w, events[0]);
      RunKeeps(Next(w, events[0]).value, events[1..]);
    }
  }

  /** A disk on which this engine has done nothing; another program's file may sit at the command path. */
  function Initial(command: Option<Digest>): Disk {
    EMPTY.(command := if command.Some? then Some(File(command.value, false)) else None)
  }

  /**
   In every reachable state a launcher the engine created is accounted for by a marker with its digest,
   a retained version with that digest, or install.json; and recovery succeeds exactly unless stuck.
   */
  lemma LauncherAlwaysAccounted(command: Option<Digest>, events: seq<Event>)
    requires Run(World(Initial(command), None), events).Some?
    ensures var d := Run(World(Initial(command), None), events).value.disk;
            Sound(d) && Accounted(d) && (Recover(d).ok <==> !Stuck(d))
  {
    var start := World(Initial(command), None);
    assert WorldSound(start);
    RunKeeps(start, events);
    RecoverExactly(Run(start, events).value.disk);
  }

  ghost predicate ForeignWorld(w: World, g: Digest) {
    w.disk == Initial(Some(g)) && (w.holder.Some? ==> w.holder.value == [])
  }

  lemma ForeignPlan(g: Digest, request: Request)
    ensures Plan(Initial(Some(g)), request).ops == []
  {
  }

  /** Another program's file at the command path is never touched, and nothing is ever installed beside it. */
  lemma {:induction false} ForeignFileStays(w: World, g: Digest, events: seq<Event>)
    requires ForeignWorld(w, g) && Run(w, events).Some?
    ensures ForeignWorld(Run(w, events).value, g)
    decreases |events|
  {
    if events != [] {
      if events[0].Lock? {
        ForeignPlan(g, events[0].request);
      }
      ForeignFileStays(Next(w, events[0]).value, g, events[1..]);
    }
  }

  // ---- Releases with different launchers ----

  function Steps(n: nat): seq<Event> {
    if n == 0 then [] else [Step] + Steps(n - 1)
  }

  lemma {:induction false} StepsApply(d: Disk, ops: seq<Op>, n: nat, rest: seq<Event>)
    requires n <= |ops|
    ensures Run(World(d, Some(ops)), Steps(n) + rest) == Run(World(ApplyAll(d, ops[..n]), Some(ops[n..])), rest)
    decreases n
  {
    if n == 0 {
      assert Steps(0) + rest == rest && ops[..0] == [] && ops[0..] == ops;
    } else {
      var events := Steps(n) + rest;
      assert events[0] == Step && events[1..] == Steps(n - 1) + rest;
      StepsApply(Apply(d, ops[0]), ops[1..], n - 1, rest);
      assert ops[1..][..n - 1] == ops[..n][1..] && ops[1..][n - 1..] == ops[n..];
    }
  }

  /** An operation that dies after `n` of its steps. */
  function Dying(request: Request, n: nat): seq<Event> {
    [Lock(request)] + Steps(n) + [Crash]
  }

  lemma DyingApplies(d: Disk, request: Request, n: nat, rest: seq<Event>)
    requires n <= |Plan(d, request).ops|
    ensures Run(World(d, None), Dying(request, n) + rest) == Run(World(ApplyAll(d, Plan(d, request).ops[..n]), None),
        rest)
  {
    var ops := Plan(d, request).ops;
    var events := Dying(request, n) + rest;
    assert events[0] == Lock(request) && events[1..] == Steps(n) + ([Crash] + rest);
    StepsApply(d, ops, n, [Crash] + rest);
    assert ([Crash] + rest)[0] == Crash && ([Crash] + rest)[1..] == rest;
  }

  /** The disk after a first install that dies once its version has been renamed. */
  function Renamed(v: Version, g: Digest): Disk {
    EMPTY.(versions := map[v := g], staging := [Transaction(Some(g))], command := Some(File(g, true)))
  }

  lemma FirstInstallDies(v: Version, g: Digest)
    ensures var ops := Plan(EMPTY, Download(v, g, true)).ops;
            |ops| >= 4 && ApplyAll(EMPTY, ops[..4]) == Renamed(v, g)
  {
    var four := [CreateTx, WriteMarker(g), CreateLauncher(g), RenameVersion(v, g)];
    assert Sound(EMPTY);
    FirstLauncher(EMPTY, v, g);
    assert CleanupFrom(EMPTY, true) == Outcome([], true);
    assert Stage(EMPTY, v, g, false).ops == four;
    var rest := ActivateClean(EMPTY, v, g, true, None).ops;
    assert four <= rest;
    var ops := Plan(EMPTY, Download(v, g, true)).ops;
    assert ops == [] + rest;
    assert ops[..4] == four;
    assert EMPTY.versions[v := g] == map[v := g];
  }

  lemma SecondInstallDies(v1: Version, v2: Version, g1: Digest, g2: Digest)
    requires v1 != v2
    ensures var ops := Plan(Renamed(v1, g1), Download(v2, g2, true)).ops;
            |ops| >= 5
            && var end := ApplyAll(Renamed(v1, g1), ops[..5]);
               end.install.None? && end.active == Some(v2) && v2 in end.versions && end.versions[v2] == g2
               && end.command == Some(File(g1, true))
  {
    var d := Renamed(v1, g1);
    assert v1 in d.versions && d.versions[v1] == g1;
    assert Retains(d, g1);
    var clean := d.(staging := []);
    var after := clean;
    assert CleanupFrom(after, true) == Outcome([], true);
    assert CleanupFrom(d, true) == Outcome([DropTx] + [], true);
    assert Apply(d, DropTx) == clean;
    assert ApplyAll(d, [DropTx]) == clean;
    assert Retains(clean, g1);
    var staged := Stage(clean, v2, g2, true);
    assert staged == Outcome([CreateTx, RenameVersion(v2, g2)], true);
    var d1 := Apply(clean, CreateTx);
    var ready := Apply(d1, RenameVersion(v2, g2));
    assert ApplyAll(clean, staged.ops) == ready by {
      assert staged.ops[1..] == [RenameVersion(v2, g2)];
      assert ApplyAll(d1, [RenameVersion(v2, g2)]) == ready;
    }
    var commit := Commit(ready, v2, Some(g1), true).ops;
    assert [PutPending(Pending(None, v2)), PutActive(v2)] <= commit;
    var rest := ActivateClean(clean, v2, g2, true, Some(g1)).ops;
    assert rest == staged.ops + commit;
    var ops := Plan(d, Download(v2, g2, true)).ops;
    assert ops == [DropTx] + rest;
    var five := [DropTx] + (staged.ops + [PutPending(Pending(None, v2)), PutActive(v2)]);
    assert ops[..5] == five;
    ApplyAllConcat(d, [DropTx], staged.ops + [PutPending(Pending(None, v2)), PutActive(v2)]);
    ApplyAllConcat(clean, staged.ops, [PutPending(Pending(None, v2)), PutActive(v2)]);
    var d2 := Apply(ready, PutPending(Pending(None, v2)));
    assert ApplyAll(ready, [PutPending(Pending(None, v2)), PutActive(v2)]) == Apply(d2, PutActive(v2)) by {
      assert [PutPending(Pending(None, v2)), PutActive(v2)][1..] == [PutActive(v2)];
      assert ApplyAll(d2, [PutActive(v2)]) == Apply(d2, PutActive(v2));
    }
  }

  /** A first install dies after its version was renamed; the next one brings another launcher and dies
      right after switching the selector.  From then on recovery fails, and with it every operation. */
  lemma RecoveryCanBeStuck(v1: Version, v2: Version, g1: Digest, g2: Digest)
    requires v1 != v2 && g1 != g2
    ensures var end := Run(World(Initial(None), None), Dying(Download(v1, g1, true), 4)
        + Dying(Download(v2, g2, true), 5));
            end.Some? && Stuck(end.value.disk) && !Recover(end.value.disk).ok
  {
    var second := Dying(Download(v2, g2, true), 5);
    FirstInstallDies(v1, g1);
    DyingApplies(EMPTY, Download(v1, g1, true), 4, second);
    SecondInstallDies(v1, v2, g1, g2);
    DyingApplies(Renamed(v1, g1), Download(v2, g2, true), 5, []);
    assert second + [] == second;
    assert Initial(None) == EMPTY;
    LauncherAlwaysAccounted(None, Dying(Download(v1, g1, true), 4) + second);
  }

  // ---- Releases that share one launcher ----

  predicate SharedOp(op: Op, g: Digest) {
    && (op.WriteMarker? || op.CreateLauncher? ==> op.digest == g)
    && (op.RenameVersion? ==> op.digest == g)
  }

  predicate SharedOps(ops: seq<Op>, g: Digest) {
    forall i :: 0 <= i < |ops| ==> SharedOp(ops[i], g)
  }

  predicate SharedRequest(request: Request, g: Digest) {
    request.Download? ==> request.digest == g
  }

  ghost predicate Shared(d: Disk, g: Digest) {
    && (forall v :: v in d.versions ==> d.versions[v] == g)
    && (d.command.Some? ==> d.command.value == File(g, true))
  }

  lemma {:induction false} CleanupShared(d: Disk, orphan: bool, g: Digest)
    ensures SharedOps(CleanupFrom(d, orphan).ops, g)
    decreases |d.staging|
  {
    if d.staging != [] {
      var marker := d.staging[0].marker;
      var remove := orphan && marker.Some? && d.command.Some? && !Retains(d, marker.value);
      CleanupShared((if remove then d.(command := None) else d).(staging := d.staging[1..]), orphan, g);
    }
  }

  lemma ConcatShared(a: seq<Op>, b: seq<Op>, g: Digest)
    requires SharedOps(a, g) && SharedOps(b, g)
    ensures SharedOps(a + b, g)
  {
  }

  lemma CommitShared(d: Disk, to: Version, prior: Option<Digest>, tx: bool, g: Digest)
    requires to in d.versions
    ensures SharedOps(Commit(d, to, prior, tx).ops, g)
  {
  }

  lemma ActivateCleanShared(d: Disk, v: Version, g: Digest, selfTest: bool, retained: Option<Digest>)
    ensures SharedOps(ActivateClean(d, v, g, selfTest, retained).ops, g)
  {
    var prior := if d.install.Some? then PriorLauncher(d.install) else retained;
    if v in d.versions {
      CommitShared(d, v, prior, false, g);
    } else {
      var staged := Stage(d, v, g, d.install.Some? || retained.Some?);
      var ready := ApplyAll(d, staged.ops);
      if v in ready.versions {
        CommitShared(ready, v, prior, true, g);
        ConcatShared(staged.ops, Commit(ready, v, prior, true).ops, g);
      }
    }
  }

  lemma DownloadShared(d: Disk, v: Version, g: Digest, selfTest: bool)
    ensures SharedOps(ActivateDownload(d, v, g, selfTest).ops, g)
  {
    CleanupShared(d, Orphan(d), g);
    var retained := if d.install.None? && RetainedOwnership(d) then Some(d.command.value.digest) else None;
    var cleaning := if d.active.Some? || d.command.None? || d.install.None? then Cleanup(d) else Outcome([], true);
    var clean := ApplyAll(d, cleaning.ops);
    ActivateCleanShared(clean, v, g, selfTest, retained);
    ConcatShared(cleaning.ops, ActivateClean(clean, v, g, selfTest, retained).ops, g);
  }

  lemma PlanShared(d: Disk, request: Request, g: Digest)
    requires SharedRequest(request, g)
    ensures SharedOps(Plan(d, request).ops, g)
  {
    match request
    case Recovery => RecoverShared(d, g);
    case Download(v, _, selfTest) => DownloadShared(d, v, g, selfTest);
    case Rollback(target, selfTest) =>
      if d.active.Some? && target in d.versions {
        CommitShared(d, target, PriorLauncher(d.install), false, g);
      }
  }

  lemma ThenShared(d: Disk, ops: seq<Op>, cleanup: bool, g: Digest)
    requires SharedOps(ops, g)
    ensures SharedOps(Then(d, ops, cleanup).ops, g)
  {
    var mid := ApplyAll(d, ops);
    CleanupShared(mid, Orphan(mid), g);
  }

  lemma RecoverShared(d: Disk, g: Digest)
    ensures SharedOps(Recover(d).ops, g)
  {
    ThenShared(d, [], true, g);
    ThenShared(d, [DropPending], true, g);
    if Recover(d).ops != [] && Recover(d).ops[0].PutInstall? {
      var first := Recover(d).ops[0];
      ThenShared(d, [first, DropPending], true, g);
      ThenShared(d, [first], true, g);
    }
  }

  ghost predicate SharedWorld(w: World, g: Digest) {
    Shared(w.disk, g) && (w.holder.Some? ==> SharedOps(w.holder.value, g))
  }

  predicate SharedEvents(events: seq<Event>, g: Digest) {
    forall i :: 0 <= i < |events| && events[i].Lock? ==> SharedRequest(events[i].request, g)
  }

  lemma {:induction false} RunShared(w: World, events: seq<Event>, g: Digest)
    requires SharedWorld(w, g) && SharedEvents(events, g) && Run(w, events).Some?
    ensures SharedWorld(Run(w, events).value, g)
    decreases |events|
  {
    if events != [] {
      var e := events[0];
      if e.Lock? {
        PlanShared(w.disk, e.request, g);
      } else if e.Step? && w.holder.value != [] {
        assert SharedOp(w.holder.value[0], g);
      }
      RunShared(Next(w, e).value, events[1..], g);
    }
  }

  /** What recovery leaves: nothing pending, the selector unchanged, a clean staging if it is set, and the
      document of an executed activation completed, every other one as it was. */
  lemma RecoverLeaves(d: Disk)
    requires Sound(d) && !Stuck(d)
    ensures var end := ApplyAll(d, Recover(d).ops);
            && Sound(end) && end.pending.None? && end.active == d.active && (end.active.Some? ==> end.staging == [])
            && end.versions == d.versions && !HasMarker(end)
            && (if d.pending.Some? && d.active == Some(d.pending.value.to)
                then end.install.Some? && end.install.value.active == d.active && end.install.value.previous
                    == d.pending.value.from
                     && Matches(d, end.install.value.launcher)
                else end.install == d.install)
  {
    RecoverExactly(d);
    SafeEnd(d, Recover(d).ops);
    if d.pending.Some? && d.active == Some(d.pending.value.to) {
      CompletionLeaves(d);
    } else if d.pending.Some? {
      OneOp(d, DropPending);
      ThenLeaves(d, [DropPending]);
    } else if d.active.Some? || HasMarker(d) {
      ThenLeaves(d, []);
    }
  }

  lemma CompletionLeaves(d: Disk)
    requires Sound(d) && !Stuck(d) && d.pending.Some? && d.active == Some(d.pending.value.to)
    ensures var p, end := d.pending.value, ApplyAll(d, Recover(d).ops);
            && end == d.(install := end.install, pending := None, staging := [])
            && end.install.Some? && end.install.value.active == d.active && end.install.value.previous == p.from
            && Matches(d, end.install.value.launcher)
  {
    RecoverExactly(d);
    var p := d.pending.value;
    var state := Install(Some(p.to), p.from, OwnershipFor(d, p.to, PriorLauncher(d.install)).value);
    TwoOps(d, PutInstall(state), DropPending);
    ThenLeaves(d, [PutInstall(state), DropPending]);
  }

  lemma ThenLeaves(d: Disk, ops: seq<Op>)
    requires Safe(d, ops)
    ensures var mid := ApplyAll(d, ops);
            var end := ApplyAll(d, Then(d, ops, true).ops);
            end == mid.(staging := []) || (Orphan(mid) && end == mid.(staging := [], command := None))
  {
    var mid := ApplyAll(d, ops);
    SafeEnd(d, ops);
    CleanupSafe(mid, Orphan(mid));
    ApplyAllConcat(d, ops, Cleanup(mid).ops);
  }

  /** One operation and, if it succeeds, another on the disk it leaves. */
  function InTurn(d: Disk, first: Disk -> Outcome, next: Disk -> Outcome): Outcome {
    var o := first(d);
    if !o.ok then o
    else
      var rest := next(ApplyAll(d, o.ops));
      Outcome(o.ops + rest.ops, rest.ok)
  }

  /** The unlocked proof that the launcher is ours, and then the locked activation. */
  function ProvenDownload(d: Disk, v: Version, g: Digest, selfTest: bool): Outcome {
    if d.command.Some? && d.install.None? && !RetainedOwnership(d) then REFUSED
    else ActivateDownload(d, v, g, selfTest)
  }

  function Reinstall(d: Disk, v: Version, g: Digest, selfTest: bool): Outcome {
    InTurn(d, Recover, x => ProvenDownload(x, v, g, selfTest))
  }

  /** The public operation recovers before it fetches anything and again before it activates. */
  function InstallVersion(d: Disk, v: Version, g: Digest, selfTest: bool): Outcome {
    InTurn(d, Recover, x => Reinstall(x, v, g, selfTest))
  }

  /** The installed launcher, if any, was made by this engine. */
  predicate Ours(d: Disk) {
    d.command.Some? ==> d.command.value.engine
  }

  lemma {:induction false} StaysOurs(d: Disk, ops: seq<Op>)
    requires Ours(d)
    ensures Ours(ApplyAll(d, ops))
    decreases |ops|
  {
    if ops != [] {
      StaysOurs(Apply(d, ops[0]), ops[1..]);
    }
  }

  /** Two operations in turn leave what the second leaves. */
  lemma InTurnLeaves(d: Disk, first: Disk -> Outcome, next: Disk -> Outcome)
    requires first(d).ok
    ensures var mid, o := ApplyAll(d, first(d).ops), InTurn(d, first, next);
            o.ok == next(mid).ok && ApplyAll(d, o.ops) == ApplyAll(mid, next(mid).ops)
  {
    var mid := ApplyAll(d, first(d).ops);
    ApplyAllConcat(d, first(d).ops, next(mid).ops);
  }

  /** A recovered disk: recovery succeeds again and the launcher is still ours. */
  lemma RecoveredAgain(d: Disk)
    requires Sound(d) && Ours(d) && !Stuck(d)
    ensures var end := ApplyAll(d, Recover(d).ops);
            && Recover(d).ok && Sound(end) && Ours(end) && !Stuck(end) && end.pending.None?
            && end.active == d.active && end.versions == d.versions
            && (end.command.Some? && end.install.None? ==> RetainedOwnership(end))
            && (end.active.Some? ==> end.staging == [])
  {
    RecoverLeaves(d);
    RecoverExactly(d);
    StaysOurs(d, Recover(d).ops);
  }

  /**
   On a sound disk whose launcher is ours, installing a version not below the selector succeeds and
   leaves it installed, exactly when recovery is not stuck; the unlocked proof never gets in the way.
   */
  lemma InstallLandsExactly(d: Disk, v: Version, g: Digest)
    requires Sound(d) && Ours(d) && (v in d.versions ==> d.versions[v] == g)
    requires d.active.Some? ==> v >= d.active.value
    ensures var o := InstallVersion(d, v, g, true);
            && (o.ok <==> !Stuck(d))
            && (o.ok ==> Activated(ApplyAll(d, o.ops), v))
  {
    RecoverExactly(d);
    if !Stuck(d) {
      RecoveredAgain(d);
      var d1 := ApplyAll(d, Recover(d).ops);
      RecoveredAgain(d1);
      var d2 := ApplyAll(d1, Recover(d1).ops);
      DownloadSafe(d2, v, g, true);
      InTurnLeaves(d1, Recover, x => ProvenDownload(x, v, g, true));
      InTurnLeaves(d, Recover, x => Reinstall(x, v, g, true));
    }
  }

  /**
   When all releases share one launcher, then after any run of crashed operations recovery succeeds, and
   a following install of any version not below the selector succeeds and leaves it installed.
   */
  lemma SharedLauncherRecovers(g: Digest, events: seq<Event>, v: Version)
    requires SharedEvents(events, g) && Run(World(EMPTY, None), events).Some?
    requires var active := Run(World(EMPTY, None), events).value.disk.active; active.Some? ==> v >= active.value
    ensures var d := Run(World(EMPTY, None), events).value.disk;
            var o := InstallVersion(d, v, g, true);
            && Recover(d).ok && o.ok && Activated(ApplyAll(d, o.ops), v)
  {
    var start := World(EMPTY, None);
    LauncherAlwaysAccounted(None, events);
    assert Initial(None) == EMPTY;
    RunShared(start, events, g);
    var d := Run(start, events).value.disk;
    RecoverExactly(d);
    InstallLandsExactly(d, v, g);
  }
}
