/**
 Histories of processes that lock, step and die, and of power cuts at any moment.  Every disk that any
 power cut may leave is good exactly if every process that dies leaves a settled medium behind.
 */
module PowerCuts {
  import opened Results
  import opened ManagedState
  import opened Plans
  import opened Consistency
  import opened PlanSafety
  import opened Contention
  import opened RecoveryLaws
  import opened Durability
  import opened Readiness

  datatype PoweredWorld = PoweredWorld(media: Media, holder: Option<Pid>, todo: seq<Op>)

  /** The lock file is created without any synchronisation; everything else happens under the lock. */
  datatype PoweredEvent =
    | CreateLock
    | Acquire(pid: Pid, request: Request)
    | Perform(pid: Pid)
    | Release(pid: Pid)
    | Die(pid: Pid)
    | PowerCut(survivor: Disk)

  predicate Allowed(w: PoweredWorld, e: PoweredEvent, rel: Catalogue) {
    match e
    case CreateLock => !w.media.vol.lockFile
    case Acquire(_, request) =>
      && w.holder.None? && w.media.vol.lockFile
      && (request.Downloading? ==> Fetched(request.download, rel))
    case Perform(pid) => w.holder == Some(pid) && w.todo != []
    case Release(pid) => w.holder == Some(pid) && w.todo == []
    case Die(pid) => w.holder == Some(pid)
    case PowerCut(survivor) => Survives(w.media, survivor)
  }

  ghost function PoweredStep(w: PoweredWorld, e: PoweredEvent, rel: Catalogue): PoweredWorld
    requires Allowed(w, e, rel)
  {
    match e
    case CreateLock => w.(media := w.media.(vol := w.media.vol.(lockFile := true), lockSettled := false))
    case Acquire(pid, request) => w.(holder := Some(pid), todo := PlanOf(w.media.vol, request))
    case Perform(_) => w.(media := MediaApply(w.media, w.todo[0]), todo := w.todo[1..])
    case Release(_) => w.(holder := None)
    case Die(_) => w.(holder := None, todo := [])
    case PowerCut(survivor) => PoweredWorld(Durable(survivor), None, [])
  }

  ghost predicate PoweredRuns(w: PoweredWorld, es: seq<PoweredEvent>, rel: Catalogue)
    decreases |es|
  {
    es != [] ==> Allowed(w, es[0], rel) && PoweredRuns(PoweredStep(w, es[0], rel), es[1..], rel)
  }

  ghost function PoweredAfter(w: PoweredWorld, es: seq<PoweredEvent>, rel: Catalogue): PoweredWorld
    requires PoweredRuns(w, es, rel)
    decreases |es|
  {
    if es == [] then w else PoweredAfter(PoweredStep(w, es[0], rel), es[1..], rel)
  }

  /** Nobody holds the lock. */
  function Idle(m: Media): PoweredWorld {
    PoweredWorld(m, None, [])
  }

  /** Every process that dies leaves a settled medium. */
  ghost predicate Orderly(w: PoweredWorld, es: seq<PoweredEvent>, rel: Catalogue)
    requires PoweredRuns(w, es, rel)
    decreases |es|
  {
    es != [] ==> (es[0].Die? ==> Settled(w.media)) && Orderly(PoweredStep(w, es[0], rel), es[1..], rel)
  }

  /** The end of an orderly history from an idle medium. */
  ghost predicate Reaches(m: Media, es: seq<PoweredEvent>, w: PoweredWorld, rel: Catalogue) {
    PoweredRuns(Idle(m), es, rel) && Orderly(Idle(m), es, rel) && PoweredAfter(Idle(m), es, rel) == w
  }

  // ---- What an orderly history keeps ----

  ghost predicate PoweredInv(w: PoweredWorld, rel: Catalogue) {
    && Withstands(w.media, w.todo, rel)
    && AllGood(MediaApplyAll(w.media, w.todo), rel) && Settled(MediaApplyAll(w.media, w.todo))
    && (w.holder.None? || w.media.vol.command.Foreign? ==> w.todo == [])
    && (w.media.vol.command.Foreign? || (w.media.vol.lockFile && w.media.lockSettled))
  }

  /** Beside a foreign command no operation does anything. */
  lemma ForeignIsIdle(d: Disk, request: Request, rel: Catalogue)
    requires Good(d, rel) && d.command.Foreign?
    ensures PlanOf(d, request) == []
  {
  }

  lemma AcquireKeeps(m: Media, request: Request, rel: Catalogue)
    requires AllGood(m, rel) && Settled(m) && m.vol.lockFile
    requires request.Downloading? ==> Fetched(request.download, rel)
    ensures var ops := PlanOf(m.vol, request);
            && Withstands(m, ops, rel)
            && AllGood(MediaApplyAll(m, ops), rel) && Settled(MediaApplyAll(m, ops))
  {
    SettledExactly(m, rel);
    assert Ready(m, request);
    PlanExactly(m, request, rel);
    EndsSettled(m, MediaApplyAll(m, PlanOf(m.vol, request)), rel);
  }

  lemma SurvivorIsSettled(w: PoweredWorld, survivor: Disk, rel: Catalogue)
    requires PoweredInv(w, rel) && Survives(w.media, survivor)
    ensures PoweredInv(Idle(Durable(survivor)), rel)
  {
    DurableIsSettled(survivor, rel);
  }

  /** Creating the lock file beside a foreign command. */
  lemma CreateLockKeeps(m: Media, rel: Catalogue)
    requires AllGood(m, rel) && !m.vol.lockFile
    ensures AllGood(m.(vol := m.vol.(lockFile := true), lockSettled := false), rel)
  {
    var m' := m.(vol := m.vol.(lockFile := true), lockSettled := false);
    forall d | Survives(m', d) ensures Good(d, rel) {
      assert Survives(m, d.(lockFile := false)) && Good(d.(lockFile := false), rel);
    }
  }

  lemma PerformKeeps(w: PoweredWorld, rel: Catalogue)
    requires PoweredInv(w, rel) && w.holder.Some? && w.todo != []
    ensures PoweredInv(w.(media := MediaApply(w.media, w.todo[0]), todo := w.todo[1..]), rel)
  {
    LockKept(w.media, w.todo[0]);
  }

  lemma LockKept(m: Media, op: Op)
    requires !m.vol.command.Foreign? && m.vol.lockFile && m.lockSettled
    ensures var m' := MediaApply(m, op);
            !m'.vol.command.Foreign? && m'.vol.lockFile && m'.lockSettled
  {
  }

  lemma PoweredStepKeeps(w: PoweredWorld, e: PoweredEvent, rel: Catalogue)
    requires PoweredInv(w, rel) && Allowed(w, e, rel) && (e.Die? ==> Settled(w.media))
    ensures PoweredInv(PoweredStep(w, e, rel), rel)
  {
    VisibleIsGood(w.media, rel);
    match e
    case CreateLock => CreateLockKeeps(w.media, rel);
    case Acquire(_, request) =>
      AcquireKeeps(w.media, request, rel);
      if w.media.vol.command.Foreign? {
        ForeignIsIdle(w.media.vol, request, rel);
      }
    case PowerCut(survivor) => SurvivorIsSettled(w, survivor, rel);
    case Perform(_) => PerformKeeps(w, rel);
    case _ =>
  }

  lemma {:induction false} PoweredRunKeeps(w: PoweredWorld, es: seq<PoweredEvent>, rel: Catalogue)
    requires PoweredInv(w, rel) && PoweredRuns(w, es, rel) && Orderly(w, es, rel)
    ensures PoweredInv(PoweredAfter(w, es, rel), rel)
    decreases |es|
  {
    if es != [] {
      PoweredStepKeeps(w, es[0], rel);
      PoweredRunKeeps(PoweredStep(w, es[0], rel), es[1..], rel);
    }
  }

  lemma SettledStart(m: Media, rel: Catalogue)
    requires AllGood(m, rel) && Settled(m)
    ensures PoweredInv(Idle(m), rel)
  {
  }

  /** No process dies while a rename waits for its directory. */
  ghost predicate Careful(w: PoweredWorld, es: seq<PoweredEvent>, rel: Catalogue)
    requires PoweredRuns(w, es, rel)
    decreases |es|
  {
    es != [] ==> (es[0].Die? ==> Calm(w.media)) && Careful(PoweredStep(w, es[0], rel), es[1..], rel)
  }

  /** A process that dies outside the windows between a rename and its synchronisation does no harm. */
  lemma {:induction false} CarefulIsOrderly(w: PoweredWorld, es: seq<PoweredEvent>, rel: Catalogue)
    requires PoweredInv(w, rel) && PoweredRuns(w, es, rel) && Careful(w, es, rel)
    ensures Orderly(w, es, rel)
    decreases |es|
  {
    if es != [] {
      if es[0].Die? && !w.media.vol.command.Foreign? {
        CalmIsSettled(w.media, rel);
      }
      PoweredStepKeeps(w, es[0], rel);
      CarefulIsOrderly(PoweredStep(w, es[0], rel), es[1..], rel);
    }
  }

  /**
   Write-ahead order.  Whatever an orderly history from a settled medium does, every disk that a power
   cut could leave is good: a selector ahead of install.json is covered by a durable journal record
   naming both versions, and install.json never names a version the selector does not, unless such a
   record covers it too.
   */
  lemma WriteAheadSurvives(m: Media, es: seq<PoweredEvent>, w: PoweredWorld, survivor: Disk, rel: Catalogue)
    requires AllGood(m, rel) && Settled(m) && Reaches(m, es, w, rel) && Survives(w.media, survivor)
    ensures Good(survivor, rel)
    ensures !Describes(survivor, Pointer(survivor)) && !survivor.command.Foreign? ==>
              && survivor.pending.Some?
              && Pointer(survivor) == Some(survivor.pending.value.to)
              && Describes(survivor, survivor.pending.value.from)
    ensures survivor.install.Some? ==>
              || survivor.install.value.active == Pointer(survivor)
              || (survivor.pending.Some? && survivor.install.value.active == survivor.pending.value.from
                  && Pointer(survivor) == Some(survivor.pending.value.to))
  {
    SettledStart(m, rel);
    PoweredRunKeeps(Idle(m), es, rel);
  }

  /**
   When no process is at work, a power cut never moves the selector.  If no rename waits for its
   directory, all it can do is bring back or lose journal records, and that changes nothing: such a
   record names the selected version, the register is the same, and recovery writes the same
   install.json.
   */
  lemma ReappearingJournal(m: Media, es: seq<PoweredEvent>, w: PoweredWorld, survivor: Disk, rel: Catalogue)
    requires AllGood(m, rel) && Settled(m) && Reaches(m, es, w, rel) && Survives(w.media, survivor)
    requires w.holder.None?
    ensures Pointer(survivor) == Pointer(w.media.vol)
    ensures survivor.pending.Some? ==>
              || Pointer(w.media.vol) == survivor.pending.value.from
              || Pointer(w.media.vol) == Some(survivor.pending.value.to)
    ensures Calm(w.media) ==>
              && Abs(survivor) == Abs(w.media.vol)
              && (survivor.command.Selects? ==> Final(survivor).install == Final(w.media.vol).install)
  {
    SettledStart(m, rel);
    PoweredRunKeeps(Idle(m), es, rel);
    VisibleIsGood(w.media, rel);
    if Calm(w.media) {
      AtRest(w.media, survivor, rel);
    }
  }

  lemma AtRest(m: Media, survivor: Disk, rel: Catalogue)
    requires AllGood(m, rel) && Good(m.vol, rel) && Calm(m) && Survives(m, survivor)
    ensures Abs(survivor) == Abs(m.vol)
    ensures survivor.command.Selects? ==> Final(survivor).install == Final(m.vol).install
  {
    VersionsKept(m, survivor);
  }

  // ---- And without order ----

  function Performs(pid: Pid, n: nat): seq<PoweredEvent> {
    if n == 0 then [] else [Perform(pid)] + Performs(pid, n - 1)
  }

  /** An operation that performs its first `n` steps. */
  function Begun(request: Request, n: nat): seq<PoweredEvent> {
    [Acquire(0, request)] + Performs(0, n)
  }

  lemma {:induction false} PerformsReach(w: PoweredWorld, n: nat, last: seq<PoweredEvent>, rel: Catalogue)
    requires w.holder == Some(0) && n <= |w.todo|
    ensures var w' := w.(media := MediaApplyAll(w.media, w.todo[..n]), todo := w.todo[n..]);
            && (PoweredRuns(w, Performs(0, n) + last, rel) <==> PoweredRuns(w', last, rel))
            && (PoweredRuns(w', last, rel) ==>
                  && PoweredAfter(w, Performs(0, n) + last, rel) == PoweredAfter(w', last, rel)
                  && (Orderly(w, Performs(0, n) + last, rel) <==> Orderly(w', last, rel)))
    decreases n
  {
    var es := Performs(0, n) + last;
    if n == 0 {
      assert es == last && w.todo[..0] == [] && w.todo[0..] == w.todo;
    } else {
      assert es[0] == Perform(0) && es[1..] == Performs(0, n - 1) + last;
      var next := PoweredStep(w, Perform(0), rel);
      PerformsReach(next, n - 1, last, rel);
      assert w.todo[..n][1..] == w.todo[1..][..n - 1] && w.todo[1..][n - 1..] == w.todo[n..];
    }
  }

  /** What follows an operation that began is what follows its prefix on the medium. */
  lemma BegunReaches(m: Media, request: Request, n: nat, last: seq<PoweredEvent>, rel: Catalogue)
    requires Allowed(Idle(m), Acquire(0, request), rel) && n <= |PlanOf(m.vol, request)|
    ensures var ops := PlanOf(m.vol, request);
            var w := PoweredWorld(MediaApplyAll(m, ops[..n]), Some(0), ops[n..]);
            && (PoweredRuns(Idle(m), Begun(request, n) + last, rel) <==> PoweredRuns(w, last, rel))
            && (PoweredRuns(w, last, rel) ==>
                  && PoweredAfter(Idle(m), Begun(request, n) + last, rel) == PoweredAfter(w, last, rel)
                  && (Orderly(Idle(m), Begun(request, n) + last, rel) <==> Orderly(w, last, rel)))
  {
    var es := Begun(request, n) + last;
    assert es[0] == Acquire(0, request) && es[1..] == Performs(0, n) + last;
    PerformsReach(PoweredStep(Idle(m), Acquire(0, request), rel), n, last, rel);
  }

  /** No operation loses the shape of the medium. */
  lemma ShapeStays(m: Media, op: Op)
    requires Shape(m) && !m.vol.command.Foreign?
    ensures Shape(MediaApply(m, op)) && !MediaApply(m, op).vol.command.Foreign?
  {
    assert forall c <- m.commands :: !c.Foreign?;
  }

  lemma {:induction false} Counterexample(m: Media, ops: seq<Op>, rel: Catalogue) returns (k: nat, survivor: Disk)
    requires Shape(m) && !m.vol.command.Foreign? && !Withstands(m, ops, rel)
    ensures k <= |ops| && Survives(MediaApplyAll(m, ops[..k]), survivor) && !Good(survivor, rel)
    decreases |ops|
  {
    if AllGood(m, rel) {
      ShapeStays(m, ops[0]);
      k, survivor := Counterexample(MediaApply(m, ops[0]), ops[1..], rel);
      k := k + 1;
      assert ops[..k][1..] == ops[1..][..k - 1];
    } else {
      k := 0;
      survivor :| Survives(m, survivor) && !Good(survivor, rel);
      assert ops[..0] == [];
    }
  }

  /** Every disk that a power cut may leave in any orderly history from here is good. */
  ghost predicate SafeHistories(m: Media, rel: Catalogue) {
    forall es, w, survivor :: Reaches(m, es, w, rel) && Survives(w.media, survivor) ==> Good(survivor, rel)
  }

  lemma UnsettledIsUnsafe(m: Media, rel: Catalogue) returns (es: seq<PoweredEvent>, w: PoweredWorld, survivor: Disk)
    requires AllGood(m, rel) && !Settled(m) && m.vol.lockFile
    ensures Reaches(m, es, w, rel) && Survives(w.media, survivor) && !Good(survivor, rel)
  {
    SettledExactly(m, rel);
    var request: Request :|
      (request.Downloading? ==> Fetched(request.download, rel)) && !Ready(m, request);
    PlanExactly(m, request, rel);
    var ops := PlanOf(m.vol, request);
    var k;
    k, survivor := Counterexample(m, ops, rel);
    es, w := Begun(request, k), PoweredWorld(MediaApplyAll(m, ops[..k]), Some(0), ops[k..]);
    BegunReaches(m, request, k, [], rel);
    assert es + [] == es;
  }

  /** Without a lock file the next event creates one, and then it is not durable. */
  lemma UnlockedIsUnsafe(m: Media, rel: Catalogue) returns (es: seq<PoweredEvent>, w: PoweredWorld, survivor: Disk)
    requires AllGood(m, rel) && !m.vol.command.Foreign? && !m.vol.lockFile
    ensures Reaches(m, es, w, rel) && Survives(w.media, survivor) && !Good(survivor, rel)
  {
    CreateLockKeeps(m, rel);
    var m' := m.(vol := m.vol.(lockFile := true), lockSettled := false);
    var rest;
    rest, w, survivor := UnsettledIsUnsafe(m', rel);
    es := [CreateLock] + rest;
    assert es[1..] == rest;
  }

  /**
   A medium is settled exactly if no orderly history from it is ever at the mercy of a power cut.  As a
   process that dies leaves an idle medium, this says for every death whether it was harmless: a death on
   a medium that is not settled is followed by a history without any further death that a power cut ends
   with a broken disk.
   */
  lemma HistoriesExactly(m: Media, rel: Catalogue)
    requires AllGood(m, rel)
    ensures SafeHistories(m, rel) <==> Settled(m)
  {
    if Settled(m) {
      forall es, w, survivor | Reaches(m, es, w, rel) && Survives(w.media, survivor) ensures Good(survivor, rel) {
        WriteAheadSurvives(m, es, w, survivor, rel);
      }
    } else if m.vol.lockFile {
      var es, w, survivor := UnsettledIsUnsafe(m, rel);
    } else {
      var es, w, survivor := UnlockedIsUnsafe(m, rel);
    }
  }
}
