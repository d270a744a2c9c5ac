/**
  What every step of the lease protocol keeps, and what follows for whole runs.

  The invariant is local: a process that does not own the flock claims nothing
  about the host, so a step by one process can only concern its own clause.
 */
module LifecycleSafety {
  import opened Basics
  import opened Lifecycle

  // ---------------------------------------------------------------- invariant

  predicate Staging(pr: Proc) {
    match pr.main
    case Delegating => true
    case Probing => true
    case Showing(_) => true
    case Creating => true
    case Reloading => true
    case Verifying => true
    case Stopping => true
    case AwaitInactive => true
    case AwaitName => true
    case _ => false
  }

  /** The flock lives in the `RestoreState`, so it is held exactly while one exists. */
  predicate Owner(pr: Proc) {
    Staging(pr) || pr.slot.Some? || pr.main.Restoring? || pr.watch.SigRestoring?
  }

  /** The barrier at the control path is the one behind this descriptor. */
  predicate At(h: Host, ino: Option<nat>) {
    h.control.Barrier? && ino == Some(h.control.ino)
  }

  /** The unit cannot be started and will stay masked through any reload. */
  predicate Barred(m: Manager, h: Host, ino: Option<nat>) {
    && At(h, ino)
    && h.load.Masked?
    && Reloaded(m, h.control).Masked?
  }

  /** What an acquired lease guarantees: barrier on disk, unit masked, daemon
      stopped, name free. */
  predicate Excluded(m: Manager, h: Host, ino: Option<nat>) {
    Barred(m, h, ino) && h.active.Inactive? && !h.named
  }

  /** A restore in hand, whichever thread runs it. */
  predicate RestorationInv(pr: Proc, r: Restoration) {
    && (!r.full ==> r.pc.RUnlock? && !r.errors)
    && (r.rs.restart ==> pr.prior)
    && (r.pc.RUnlink? ==> r.rs.barrier)
    && pr.started == (r.full && r.pc.RUnlock? && r.rs.restart)
  }

  predicate MainInv(pr: Proc) {
    match pr.main
    case Idle => pr == Fresh
    case LockRefused => pr == Fresh.(main := LockRefused)
    case Delegating => pr.staged == Fresh.staged
    case Probing => pr.staged == Fresh.staged
    case Showing(_) => pr.staged == Fresh.staged
    case Creating => pr.staged == Fresh.staged
    case Reloading => pr.staged.barrier && !pr.staged.restart
    case Verifying => pr.staged.barrier && !pr.staged.restart
    case Stopping => pr.staged.barrier && pr.staged.restart == pr.prior
    case AwaitInactive => pr.staged.barrier && pr.staged.restart == pr.prior
    case AwaitName => pr.staged.barrier && pr.staged.restart == pr.prior
    case Arming => pr.slot.Some? && !pr.held && !pr.finished
    case Held => pr.held
    case Disarming(e) => pr.held && pr.finished && OwnExit(e)
    case Taking(e) => pr.held && pr.finished && OwnExit(e)
    case Restoring(r, e) =>
      && RestorationInv(pr, r)
      && pr.slot.None?
      && pr.restores == 1
      && (r.full <==> !e.ReleaseBarred?)
      && (OwnExit(e) ==> pr.held && pr.finished)
      && (!e.Rollback? ==> r.rs.restart == pr.prior && r.rs.barrier)
      && (e.Rollback? || e.ArmRollback? ==> !pr.held)
    case Done(e, ok, own) =>
      && pr.slot.None?
      && pr.restores == 1
      && (OwnExit(e) ==> pr.held && pr.finished)
      && (!own ==> OwnExit(e) && ok == !e.ReleaseBarred? && SignalRestored(pr))
      && (own ==> pr.left == e.ReleaseBarred?)
      && (own && OwnExit(e) ==> pr.started == (pr.prior && !e.ReleaseBarred?))
    case Dead => pr.slot.None? && pr.watch.Gone?
  }

  /** The signal thread ran the restore, and left the barrier exactly when its wait
      had expired. */
  predicate SignalRestored(pr: Proc) {
    && pr.restores == 1
    && pr.acked.Some?
    && pr.left == !pr.acked.value
    && pr.started == (pr.acked.value && pr.prior)
    && (pr.acked.value ==> pr.finished)
  }

  predicate OwnExit(e: Exit) {
    e.Release? || e.ReleaseBarred? || e.Drop?
  }

  predicate WatchInv(pr: Proc) {
    match pr.watch
    case Unarmed => pr.main.Held? || pr.main.Disarming? || pr.main.Taking? ==> pr.slot.Some?
    case Watching => pr.held && (pr.main.Held? || pr.main.Disarming?) && pr.slot.Some?
    case Waiting => pr.held && (pr.main.Held? || pr.main.Disarming?) && pr.slot.Some?
    case Acked(ack) =>
      && pr.held && (pr.main.Held? || pr.main.Disarming?) && pr.slot.Some?
      && (ack ==> pr.finished) && pr.acked == Some(ack)
    case SigRestoring(r) =>
      && pr.held && (pr.main.Held? || pr.main.Disarming?)
      && RestorationInv(pr, r)
      && pr.slot.None?
      && pr.restores == 1
      && (r.full ==> pr.finished)
      && pr.acked == Some(r.full)
      && r.rs.restart == pr.prior && r.rs.barrier
    case Terminating =>
      pr.held && (pr.main.Held? || pr.main.Disarming?) && pr.slot.None? && SignalRestored(pr)
    case Gone =>
      && (pr.held || pr.main.Dead?)
      && (pr.main.Held? || pr.main.Disarming? || pr.main.Taking? ==> pr.slot.Some? || SignalRestored(pr))
      && (pr.main.Held? ==> pr.slot.None?)
  }

  /** Facts about one process that do not mention the host. */
  predicate ProcInv(pr: Proc) {
    && MainInv(pr)
    && WatchInv(pr)
    && (Staging(pr) || pr.main.Arming? ==> pr.watch.Unarmed? && !pr.held && !pr.finished && !pr.started)
    && (Staging(pr) ==> pr.slot.None?)
    && (pr.slot.Some? ==>
          (pr.main.Arming? || pr.main.Held? || pr.main.Disarming? || pr.main.Taking?)
          && pr.slot.value.barrier && pr.slot.value.restart == pr.prior && !pr.started)
    && (pr.main.Taking? || pr.main.Restoring? || pr.main.Done? ==> pr.watch.Unarmed? || pr.watch.Gone?)
    && (pr.held && pr.started ==> pr.finished)
    && (pr.started ==> pr.prior)
    && (Staging(pr) || pr.slot.Some? || pr.main.Restoring? || pr.watch.SigRestoring? ==> !pr.left)
    && RestoreBudget(pr)
  }

  /** A process restores at most once: the right to do so is the staged state,
      the slot, or nothing. */
  predicate RestoreBudget(pr: Proc) {
    && pr.restores <= 1
    && (Staging(pr) || pr.slot.Some? ==> pr.restores == 0)
    && (pr.main.Idle? ==> pr.restores == 0)
  }

  /** What the owner of the flock knows about an untampered host. */
  predicate OwnerInv(m: Manager, h: Host, pr: Proc)
    requires ProcInv(pr)
  {
    && (match pr.main
        case Showing(adopted) => if adopted then At(h, pr.ino) else h.control.Absent?
        case Creating => h.control.Absent?
        case Reloading => At(h, pr.ino)
        case Verifying =>
          At(h, pr.ino) && h.load == Reloaded(m, h.control)
        case Stopping => Barred(m, h, pr.ino)
        case AwaitInactive => Barred(m, h, pr.ino)
        case AwaitName => Barred(m, h, pr.ino) && h.active.Inactive?
        case Restoring(r, _) => RestoreInv(m, h, pr.ino, r)
        case _ => true)
    && (pr.slot.Some? ==> Excluded(m, h, pr.ino))
    && (pr.watch.SigRestoring? ==> RestoreInv(m, h, pr.ino, pr.watch.r))
    && (pr.watch.SigRestoring? && !pr.watch.r.full ==> Excluded(m, h, pr.ino))
  }

  /** Progress of a restore: an error-free one has undone what it passed, and one
      that leaves activation barred has touched nothing. */
  predicate RestoreInv(m: Manager, h: Host, ino: Option<nat>, r: Restoration) {
    && (!r.full ==> Barred(m, h, ino))
    && (r.full && r.rs.barrier ==> match r.pc
          case RLook => At(h, ino)
          case RUnlink => At(h, ino)
          case RReload => !r.errors ==> h.control.Absent?
          case RCheck => h.load == Reloaded(m, h.control) && (!r.errors ==> h.control.Absent?)
          case _ => !r.errors ==> h.control.Absent? && h.load == m.base && !h.load.Masked?)
  }

  /** Without outside interference the manager's cache is the plain unit, a mask that
      took effect, or what a created object that lost its identity loads as. */
  predicate Clean(m: Manager, h: Host) {
    || h.load == m.base
    || (h.load.Masked? && m.effective)
    || (h.control.Foreign? && h.load == m.foreign)
  }

  /** The clause of the invariant that speaks of one process. */
  predicate Good(m: Manager, h: Host, p: Pid, pr: Proc) {
    && ProcInv(pr)
    && (Owner(pr) <==> h.lock == Some(p))
    && (!h.tampered ==> Clean(m, h))
    && (!h.tampered && Owner(pr) ==> OwnerInv(m, h, pr))
  }

  ghost predicate Inv(m: Manager, w: World) {
    && (forall p :: p in w.procs ==> Good(m, w.h, p, w.procs[p]))
    && (w.h.lock.Some? ==> w.h.lock.value in w.procs)
    && (!w.h.tampered ==> Clean(m, w.h))
  }

  // -------------------------------------------------------- every step keeps it

  /** What a step by `p` may do to the clauses of the others: nothing, because a
      host that changes is one `p` owned before or after. */
  predicate Framed(h: Host, p: Pid, pr: Proc, n: Next)
    requires n.Next?
  {
    && (n.h.lock == h.lock || (h.lock.None? && n.h.lock == Some(p)) || (h.lock == Some(p) && n.h.lock.None?))
    && (!Owner(pr) && !Owner(n.pr) ==> n.h == h)
    && n.h.tampered == h.tampered
  }

  ghost predicate Kept(m: Manager, h: Host, p: Pid, pr: Proc, n: Next) {
    n.Next? && Good(m, n.h, p, n.pr) && Framed(h, p, pr, n)
  }

  lemma LockKeeps(m: Manager, h: Host, p: Pid, pr: Proc, a: Action)
    requires Good(m, h, p, pr) && AdmitStep(h, p, pr, a).Next?
    requires a.TryLock? || a.Delegation?
    ensures Kept(m, h, p, pr, AdmitStep(h, p, pr, a))
  {
    match a
    case TryLock =>
    case Delegation(_) =>
  }

  lemma ProbeKeeps(m: Manager, h: Host, p: Pid, pr: Proc, a: Action)
    requires Good(m, h, p, pr) && AdmitStep(h, p, pr, a).Next?
    requires a.Probe?
    ensures Kept(m, h, p, pr, AdmitStep(h, p, pr, a))
  {
  }

  lemma AdmitKeeps(m: Manager, h: Host, p: Pid, pr: Proc, a: Action)
    requires Good(m, h, p, pr) && AdmitStep(h, p, pr, a).Next?
    requires a.ShowPrior?
    ensures Kept(m, h, p, pr, AdmitStep(h, p, pr, a))
  {
  }

  lemma CreateKeeps(m: Manager, h: Host, p: Pid, pr: Proc, a: Action)
    requires Good(m, h, p, pr) && BarStep(m, h, pr, a).Next?
    requires a.Create?
    ensures Kept(m, h, p, pr, BarStep(m, h, pr, a))
  {
  }

  lemma ReloadKeeps(m: Manager, h: Host, p: Pid, pr: Proc, a: Action)
    requires Good(m, h, p, pr) && BarStep(m, h, pr, a).Next?
    requires a.Reload?
    ensures Kept(m, h, p, pr, BarStep(m, h, pr, a))
  {
  }

  lemma MaskKeeps(m: Manager, h: Host, p: Pid, pr: Proc, a: Action)
    requires Good(m, h, p, pr) && BarStep(m, h, pr, a).Next?
    requires a.ShowMask?
    ensures Kept(m, h, p, pr, BarStep(m, h, pr, a))
  {
  }

  lemma StopKeeps(m: Manager, h: Host, p: Pid, pr: Proc, a: Action)
    requires Good(m, h, p, pr) && BarStep(m, h, pr, a).Next?
    requires a.Stop?
    ensures Kept(m, h, p, pr, BarStep(m, h, pr, a))
  {
  }

  lemma InactiveKeeps(m: Manager, h: Host, p: Pid, pr: Proc, a: Action)
    requires Good(m, h, p, pr) && ProveStep(h, pr, a).Next?
    requires a.PollInactive?
    ensures Kept(m, h, p, pr, ProveStep(h, pr, a))
  {
  }

  lemma NameKeeps(m: Manager, h: Host, p: Pid, pr: Proc, a: Action)
    requires Good(m, h, p, pr) && ProveStep(h, pr, a).Next?
    requires a.PollName?
    ensures Kept(m, h, p, pr, ProveStep(h, pr, a))
  {
  }

  lemma ArmKeeps(m: Manager, h: Host, p: Pid, pr: Proc, a: Action)
    requires Good(m, h, p, pr) && ProveStep(h, pr, a).Next?
    requires a.Arm?
    ensures Kept(m, h, p, pr, ProveStep(h, pr, a))
  {
  }

  lemma AdmitStepKeeps(m: Manager, h: Host, p: Pid, pr: Proc, a: Action)
    requires Good(m, h, p, pr) && AdmitStep(h, p, pr, a).Next?
    ensures Kept(m, h, p, pr, AdmitStep(h, p, pr, a))
  {
    if a.Probe? { ProbeKeeps(m, h, p, pr, a); }
    else if a.ShowPrior? { AdmitKeeps(m, h, p, pr, a); }
    else { LockKeeps(m, h, p, pr, a); }
  }

  lemma BarStepKeeps(m: Manager, h: Host, p: Pid, pr: Proc, a: Action)
    requires Good(m, h, p, pr) && BarStep(m, h, pr, a).Next?
    ensures Kept(m, h, p, pr, BarStep(m, h, pr, a))
  {
    if a.Create? { CreateKeeps(m, h, p, pr, a); }
    else if a.Reload? { ReloadKeeps(m, h, p, pr, a); }
    else if a.ShowMask? { MaskKeeps(m, h, p, pr, a); }
    else { StopKeeps(m, h, p, pr, a); }
  }

  lemma ProveStepKeeps(m: Manager, h: Host, p: Pid, pr: Proc, a: Action)
    requires Good(m, h, p, pr) && ProveStep(h, pr, a).Next?
    ensures Kept(m, h, p, pr, ProveStep(h, pr, a))
  {
    if a.PollInactive? { InactiveKeeps(m, h, p, pr, a); }
    else if a.PollName? { NameKeeps(m, h, p, pr, a); }
    else { ArmKeeps(m, h, p, pr, a); }
  }

  lemma FinishKeeps(m: Manager, h: Host, p: Pid, pr: Proc, a: Action)
    requires Good(m, h, p, pr) && LeaseStep(h, pr, a).Next?
    requires a.MarkFinished? || a.Leave? || a.CloseWatch?
    ensures Kept(m, h, p, pr, LeaseStep(h, pr, a))
  {
    match a
    case MarkFinished =>
    case Leave(_) =>
    case CloseWatch =>
  }

  lemma JoinKeeps(m: Manager, h: Host, p: Pid, pr: Proc, a: Action)
    requires Good(m, h, p, pr) && LeaseStep(h, pr, a).Next?
    requires a.Join?
    ensures Kept(m, h, p, pr, LeaseStep(h, pr, a))
  {
  }

  lemma TakeKeeps(m: Manager, h: Host, p: Pid, pr: Proc, a: Action)
    requires Good(m, h, p, pr) && LeaseStep(h, pr, a).Next?
    requires a.Take?
    ensures Kept(m, h, p, pr, LeaseStep(h, pr, a))
  {
  }

  lemma SignalKeeps(m: Manager, h: Host, p: Pid, pr: Proc, a: Action)
    requires Good(m, h, p, pr) && SignalStep(h, p, pr, a).Next?
    requires a.Signal? || a.Wake? || a.SigTake?
    ensures Kept(m, h, p, pr, SignalStep(h, p, pr, a))
  {
    match a
    case Signal =>
    case Wake =>
    case SigTake =>
  }

  lemma DeathKeeps(m: Manager, h: Host, p: Pid, pr: Proc, a: Action)
    requires Good(m, h, p, pr) && SignalStep(h, p, pr, a).Next?
    requires a.Terminate? || a.Kill?
    ensures Kept(m, h, p, pr, SignalStep(h, p, pr, a))
  {
    match a
    case Terminate(dies) => if dies { } else { }
    case Kill =>
  }

  lemma RestoreMoveFrame(m: Manager, h: Host, ino: Option<nat>, r: Restoration, ok: bool)
    requires !r.pc.RUnlock?
    ensures var v := RestoreMove(m, h, ino, r, ok);
            && v.h == h.(control := v.h.control, load := v.h.load, active := v.h.active)
            && v.r == r.(pc := v.r.pc, errors := v.r.errors)
            && (v.start <==> r.pc.RStart? && r.rs.restart)
            && (v.r.pc.RUnlock? <==> r.pc.RStart?)
            && (v.r.pc.RUnlink? ==> r.pc.RLook? && r.rs.barrier && v.h == h)
  {
  }

  lemma RestoreMoveKeeps(m: Manager, h: Host, ino: Option<nat>, r: Restoration, ok: bool)
    requires r.full && !r.pc.RUnlock? && (r.pc.RUnlink? ==> r.rs.barrier)
    requires RestoreInv(m, h, ino, r) && Clean(m, h)
    ensures var v := RestoreMove(m, h, ino, r, ok);
            RestoreInv(m, v.h, ino, v.r) && Clean(m, v.h)
  {
  }

  lemma MainUnlockKeeps(m: Manager, h: Host, p: Pid, pr: Proc, ok: bool)
    requires Good(m, h, p, pr) && pr.main.Restoring? && pr.main.r.pc.RUnlock?
    ensures Kept(m, h, p, pr, RestoringStep(m, h, pr, false, ok))
  {
  }

  lemma MainRestoreKeeps(m: Manager, h: Host, p: Pid, pr: Proc, ok: bool)
    requires Good(m, h, p, pr) && pr.main.Restoring?
    ensures Kept(m, h, p, pr, RestoringStep(m, h, pr, false, ok))
  {
    var r := pr.main.r;
    if r.pc.RUnlock? {
      MainUnlockKeeps(m, h, p, pr, ok);
    } else {
      var v, n := RestoreMove(m, h, pr.ino, r, ok), RestoringStep(m, h, pr, false, ok);
      RestoreMoveFrame(m, h, pr.ino, r, ok);
      assert n.pr == pr.(main := Restoring(v.r, pr.main.exit), started := pr.started || v.start);
      assert ProcInv(n.pr);
      if !h.tampered { RestoreMoveKeeps(m, h, pr.ino, r, ok); }
    }
  }

  lemma SignalRestoreKeeps(m: Manager, h: Host, p: Pid, pr: Proc, ok: bool)
    requires Good(m, h, p, pr) && RestoringStep(m, h, pr, true, ok).Next?
    ensures Kept(m, h, p, pr, RestoringStep(m, h, pr, true, ok))
  {
    var r := pr.watch.r;
    if !r.pc.RUnlock? {
      var v, n := RestoreMove(m, h, pr.ino, r, ok), RestoringStep(m, h, pr, true, ok);
      RestoreMoveFrame(m, h, pr.ino, r, ok);
      assert n.pr == pr.(watch := SigRestoring(v.r), started := pr.started || v.start);
      assert ProcInv(n.pr);
      if !h.tampered { RestoreMoveKeeps(m, h, pr.ino, r, ok); }
    }
  }

  lemma LeaseKeeps(m: Manager, h: Host, p: Pid, pr: Proc, a: Action)
    requires Good(m, h, p, pr) && LeaseStep(h, pr, a).Next?
    ensures Kept(m, h, p, pr, LeaseStep(h, pr, a))
  {
    if a.Join? { JoinKeeps(m, h, p, pr, a); }
    else if a.Take? { TakeKeeps(m, h, p, pr, a); }
    else { FinishKeeps(m, h, p, pr, a); }
  }

  lemma WatchKeeps(m: Manager, h: Host, p: Pid, pr: Proc, a: Action)
    requires Good(m, h, p, pr) && SignalStep(h, p, pr, a).Next?
    ensures Kept(m, h, p, pr, SignalStep(h, p, pr, a))
  {
    if a.Terminate? || a.Kill? { DeathKeeps(m, h, p, pr, a); } else { SignalKeeps(m, h, p, pr, a); }
  }

  lemma ActKeeps(m: Manager, h: Host, p: Pid, pr: Proc, a: Action)
    requires Good(m, h, p, pr) && ActStep(m, h, p, pr, a).Next?
    ensures Kept(m, h, p, pr, ActStep(m, h, p, pr, a))
  {
    if a.RestoreStep? {
      if a.bySignal { SignalRestoreKeeps(m, h, p, pr, a.ok); } else { MainRestoreKeeps(m, h, p, pr, a.ok); }
    } else if a.TryLock? || a.Delegation? || a.Probe? || a.ShowPrior? {
      AdmitStepKeeps(m, h, p, pr, a);
    } else if a.Create? || a.Reload? || a.ShowMask? || a.Stop? {
      BarStepKeeps(m, h, p, pr, a);
    } else if a.PollInactive? || a.PollName? || a.Arm? {
      ProveStepKeeps(m, h, p, pr, a);
    } else if a.Signal? || a.Wake? || a.SigTake? || a.Terminate? || a.Kill? {
      WatchKeeps(m, h, p, pr, a);
    } else {
      LeaseKeeps(m, h, p, pr, a);
    }
  }

  lemma EnvKeeps(m: Manager, h: Host, p: Pid, pr: Proc, e: EnvEvent)
    requires Good(m, h, p, pr) && EnvStep(m, h, e).Some?
    ensures var h' := EnvStep(m, h, e).value; Good(m, h', p, pr) && h'.lock == h.lock
  {
    match e
    case StartBegins =>
    case Drift(_) =>
    case NameTaken =>
    case NameDropped =>
    case OutsideReload =>
    case Tamper(_) =>
  }

  /** A step by `p` leaves the clause of every other process alone. */
  lemma OthersKept(m: Manager, h: Host, p: Pid, pr: Proc, n: Next, q: Pid, qr: Proc)
    requires p != q && n.Next? && Framed(h, p, pr, n)
    requires Good(m, h, p, pr) && Good(m, n.h, p, n.pr) && Good(m, h, q, qr)
    ensures Good(m, n.h, q, qr)
  {
    if Owner(qr) {
      assert !Owner(pr) && !Owner(n.pr);
    }
  }

  lemma EnvStepKeeps(m: Manager, w: World, e: EnvEvent)
    requires Inv(m, w) && EnvStep(m, w.h, e).Some?
    ensures Inv(m, w.(h := EnvStep(m, w.h, e).value))
  {
    forall q | q in w.procs ensures Good(m, EnvStep(m, w.h, e).value, q, w.procs[q]) {
      EnvKeeps(m, w.h, q, w.procs[q], e);
    }
    EnvKeepsClean(m, w.h, e);
  }

  lemma EnvKeepsClean(m: Manager, h: Host, e: EnvEvent)
    requires EnvStep(m, h, e).Some? && (!h.tampered ==> Clean(m, h))
    ensures var h' := EnvStep(m, h, e).value; (!h'.tampered ==> Clean(m, h')) && h'.lock == h.lock
  {
  }

  lemma ActStepKeeps(m: Manager, w: World, p: Pid, n: Next)
    requires Inv(m, w) && Good(m, w.h, p, ProcOf(w, p)) && Kept(m, w.h, p, ProcOf(w, p), n)
    ensures Inv(m, World(n.h, w.procs[p := n.pr]))
  {
    var procs := w.procs[p := n.pr];
    forall q | q in procs ensures Good(m, n.h, q, procs[q]) {
      if q != p { OthersKept(m, w.h, p, ProcOf(w, p), n, q, w.procs[q]); }
    }
  }

  lemma FreshGood(m: Manager, h: Host, p: Pid)
    requires (!h.tampered ==> Clean(m, h)) && h.lock != Some(p)
    ensures Good(m, h, p, Fresh)
  {
  }

  lemma StepKeeps(m: Manager, w: World, l: Label)
    requires Inv(m, w) && Step(m, w, l).Some?
    ensures Inv(m, Step(m, w, l).value)
  {
    if l.Env? {
      EnvStepKeeps(m, w, l.e);
    } else {
      if l.p !in w.procs { FreshGood(m, w.h, l.p); }
      ActKeeps(m, w.h, l.p, ProcOf(w, l.p), l.a);
      ActStepKeeps(m, w, l.p, ActStep(m, w.h, l.p, ProcOf(w, l.p), l.a));
    }
  }

  lemma {:induction false} RunKeeps(m: Manager, w: World, ls: seq<Label>)
    requires Inv(m, w) && Run(m, w, ls).Some?
    ensures Inv(m, Run(m, w, ls).value)
    decreases |ls|
  {
    if ls != [] {
      StepKeeps(m, w, ls[0]);
      RunKeeps(m, Step(m, w, ls[0]).value, ls[1..]);
    }
  }
}
