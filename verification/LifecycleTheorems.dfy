/** What the lease promises, for every run of every number of processes. */
module LifecycleTheorems {
  import opened Basics
  import opened Lifecycle
  import opened LifecycleSafety

  /** Some run from a boot ends in `w`. */
  ghost predicate Reachable(m: Manager, w: World) {
    exists w0, ls :: Boot(m, w0) && Run(m, w0, ls) == Some(w)
  }

  lemma ReachableInv(m: Manager, w: World)
    requires Reachable(m, w)
    ensures Inv(m, w)
  {
    var w0, ls :| Boot(m, w0) && Run(m, w0, ls) == Some(w);
    RunKeeps(m, w0, ls);
  }

  /** An operation in progress: the lease was handed out and not yet marked finished. */
  predicate Operating(pr: Proc) {
    pr.main.Held? && !pr.finished
  }

  // ------------------------------------------------------------ mutual exclusion

  /** However many processes run, at most one of them has a restore state: a
      staging, a lease or a restore. */
  lemma OneOwner(m: Manager, w: World, p: Pid, q: Pid)
    requires Reachable(m, w) && p in w.procs && q in w.procs
    requires Owner(w.procs[p]) && Owner(w.procs[q])
    ensures p == q
  {
    ReachableInv(m, w);
  }

  /** While a lease that owns the lock is operating, the barrier is on disk, the
      unit is masked, the daemon is stopped and off the bus, and this lease has
      asked for no start. */
  lemma OperatingUnderLockExcludes(m: Manager, w: World, p: Pid)
    requires Reachable(m, w) && !w.h.tampered
    requires p in w.procs && Operating(w.procs[p]) && w.h.lock == Some(p)
    ensures Excluded(m, w.h, w.procs[p].ino)
    ensures !w.procs[p].started
  {
    ReachableInv(m, w);
    assert Good(m, w.h, p, w.procs[p]);
  }

  /** The one way an operating lease loses the lock: a signal arrived, the
      acknowledgement wait expired, and the signal thread left activation barred. */
  lemma OperatingWithoutLock(m: Manager, w: World, p: Pid)
    requires Reachable(m, w) && p in w.procs && Operating(w.procs[p])
    ensures w.h.lock != Some(p) <==>
              (w.procs[p].watch.Terminating? || w.procs[p].watch.Gone?)
    ensures w.h.lock != Some(p) <==> w.procs[p].left
    ensures w.h.lock != Some(p) ==> w.procs[p].acked == Some(false) && !w.procs[p].started
  {
    ReachableInv(m, w);
    assert Good(m, w.h, p, w.procs[p]);
  }

  /** Only a restore step asks for a start or reports an outcome of its own. */
  predicate Quiet(pr: Proc, n: Next)
    requires n.Next?
  {
    && n.pr.started == pr.started
    && (n.pr.main.Done? && n.pr.main != pr.main ==>
          !n.pr.main.own && n.pr.main.ok == !n.pr.main.exit.ReleaseBarred?)
  }

  lemma QuietLock(h: Host, p: Pid, pr: Proc, a: Action)
    requires AdmitStep(h, p, pr, a).Next? && (a.TryLock? || a.Delegation?)
    ensures Quiet(pr, AdmitStep(h, p, pr, a))
  {
  }

  lemma QuietAdmit(h: Host, p: Pid, pr: Proc, a: Action)
    requires AdmitStep(h, p, pr, a).Next?
    ensures Quiet(pr, AdmitStep(h, p, pr, a))
  {
    if a.TryLock? || a.Delegation? { QuietLock(h, p, pr, a); }
  }

  lemma QuietCreate(m: Manager, h: Host, pr: Proc, a: Action)
    requires BarStep(m, h, pr, a).Next? && a.Create?
    ensures Quiet(pr, BarStep(m, h, pr, a))
  {
  }

  lemma QuietReload(m: Manager, h: Host, pr: Proc, a: Action)
    requires BarStep(m, h, pr, a).Next? && (a.Reload? || a.ShowMask?)
    ensures Quiet(pr, BarStep(m, h, pr, a))
  {
  }

  lemma QuietStop(m: Manager, h: Host, pr: Proc, a: Action)
    requires BarStep(m, h, pr, a).Next? && a.Stop?
    ensures Quiet(pr, BarStep(m, h, pr, a))
  {
  }

  lemma QuietBar(m: Manager, h: Host, pr: Proc, a: Action)
    requires BarStep(m, h, pr, a).Next?
    ensures Quiet(pr, BarStep(m, h, pr, a))
  {
    if a.Create? { QuietCreate(m, h, pr, a); }
    else if a.Stop? { QuietStop(m, h, pr, a); }
    else { QuietReload(m, h, pr, a); }
  }

  lemma QuietPoll(h: Host, pr: Proc, a: Action)
    requires ProveStep(h, pr, a).Next? && (a.PollInactive? || a.PollName?)
    ensures Quiet(pr, ProveStep(h, pr, a))
  {
  }

  lemma QuietArm(h: Host, pr: Proc, a: Action)
    requires ProveStep(h, pr, a).Next? && a.Arm?
    ensures Quiet(pr, ProveStep(h, pr, a))
  {
  }

  lemma QuietProve(h: Host, pr: Proc, a: Action)
    requires ProveStep(h, pr, a).Next?
    ensures Quiet(pr, ProveStep(h, pr, a))
  {
    if a.Arm? { QuietArm(h, pr, a); } else { QuietPoll(h, pr, a); }
  }

  lemma QuietSteps(m: Manager, h: Host, p: Pid, pr: Proc, a: Action)
    requires ActStep(m, h, p, pr, a).Next? && !a.RestoreStep?
    ensures Quiet(pr, ActStep(m, h, p, pr, a))
  {
    if a.TryLock? || a.Delegation? || a.Probe? || a.ShowPrior? {
      QuietAdmit(h, p, pr, a);
    } else if a.Create? || a.Reload? || a.ShowMask? || a.Stop? {
      QuietBar(m, h, pr, a);
    } else if a.PollInactive? || a.PollName? || a.Arm? {
      QuietProve(h, pr, a);
    }
  }

  lemma StartNeedsRestore(m: Manager, h: Host, p: Pid, pr: Proc, a: Action)
    requires Good(m, h, p, pr) && ActStep(m, h, p, pr, a).Next?
    requires !pr.started && ActStep(m, h, p, pr, a).pr.started
    ensures Owner(pr) && (pr.main.Restoring? || (pr.watch.SigRestoring? && pr.finished))
  {
    if !a.RestoreStep? { QuietSteps(m, h, p, pr, a); }
  }

  /** No start is ever issued while some operation still runs under its lock. */
  lemma NoStartDuringOperation(m: Manager, w: World, p: Pid, a: Action, q: Pid)
    requires Reachable(m, w) && Step(m, w, Act(p, a)).Some?
    requires !ProcOf(w, p).started && ProcOf(Step(m, w, Act(p, a)).value, p).started
    requires q in w.procs && Operating(w.procs[q])
    ensures w.h.lock != Some(q)
  {
    ReachableInv(m, w);
    assert Good(m, w.h, p, ProcOf(w, p));
    assert Good(m, w.h, q, w.procs[q]);
    StartNeedsRestore(m, w.h, p, ProcOf(w, p), a);
  }

  // -------------------------------------------------------------- restoring once

  /** Restoration runs at most once across release, drop, signal and arm failure,
      and once it has begun no claim on it is left. */
  lemma RestoresOnce(m: Manager, w: World, p: Pid)
    requires Reachable(m, w) && p in w.procs
    ensures w.procs[p].restores <= 1
    ensures w.procs[p].restores == 1 ==> w.procs[p].slot.None?
    ensures w.procs[p].held && (w.procs[p].main.Done? || w.procs[p].watch.Terminating?) ==>
              w.procs[p].restores == 1
  {
    ReachableInv(m, w);
    assert Good(m, w.h, p, w.procs[p]);
  }

  lemma WakeIsStep(m: Manager, h: Host, p: Pid, pr: Proc)
    requires pr.watch.Waiting?
    ensures ActStep(m, h, p, pr, Wake) == Next(h, pr.(watch := Acked(pr.finished), acked := Some(pr.finished)))
  {
  }

  /**
    A signal thread that stops waiting once the operation is marked finished, as it is from the
    moment a release or a drop begins, restores in full; one that stops before leaves activation
    barred. Where the lease was quicker there is nothing left to restore.
   */
  lemma SignalRestoresIffFinished(m: Manager, w: World, p: Pid)
    requires Reachable(m, w) && p in w.procs && w.procs[p].watch.Waiting?
    ensures var pr := w.procs[p];
            && (pr.main.Disarming? || pr.main.Taking? ==> pr.finished)
            && var woken := Step(m, w, Act(p, Wake));
            && woken.Some?
            && var taken := Step(m, woken.value, Act(p, SigTake));
            && taken.Some?
            && ProcOf(taken.value, p).watch ==
                 if pr.slot.None? then Terminating else SigRestoring(Begin(pr.slot.value, pr.finished))
  {
    ReachableInv(m, w);
    assert Good(m, w.h, p, w.procs[p]);
    WakeIsStep(m, w.h, p, w.procs[p]);
  }

  // ------------------------------------------------------------ what `Ok` means

  lemma OwnReleaseUnlock(m: Manager, h: Host, p: Pid, pr: Proc, ok: bool)
    requires Good(m, h, p, pr) && !h.tampered
    requires pr.main.Restoring? && (pr.main.exit.Release? || pr.main.exit.Drop?)
    requires pr.main.r.pc.RUnlock? && !pr.main.r.errors
    ensures var n := RestoringStep(m, h, pr, false, ok);
            && n.h.lock.None? && n.h.control.Absent?
            && n.h.load == m.base && !n.h.load.Masked?
            && n.pr.started == n.pr.prior && !n.pr.left
  {
  }

  lemma BarredUnlock(m: Manager, h: Host, p: Pid, pr: Proc, ok: bool)
    requires Good(m, h, p, pr) && !h.tampered
    requires pr.main.Restoring? && pr.main.exit.ReleaseBarred? && pr.main.r.pc.RUnlock?
    ensures var n := RestoringStep(m, h, pr, false, ok);
            && n.h.lock.None? && n.h.control.Barrier? && n.h.load.Masked?
            && !n.pr.started && n.pr.left
  {
  }

  /** The step that returns `Ok` from `release` (or ends a drop) after its own
      restore: lock free, barrier gone, unit unmasked, and a start issued exactly
      when the daemon was active at acquisition. */
  lemma ReleaseOk(m: Manager, w: World, p: Pid, a: Action, exit: Exit)
    requires Reachable(m, w) && !w.h.tampered && (exit.Release? || exit.Drop?)
    requires Step(m, w, Act(p, a)).Some?
    requires ProcOf(w, p).main != Done(exit, true, true)
    requires ProcOf(Step(m, w, Act(p, a)).value, p).main == Done(exit, true, true)
    ensures var w' := Step(m, w, Act(p, a)).value;
            && w'.h.lock.None? && w'.h.control.Absent?
            && w'.h.load == m.base && !w'.h.load.Masked?
            && ProcOf(w', p).started == ProcOf(w', p).prior
            && !ProcOf(w', p).left
  {
    var pr := ProcOf(w, p);
    assert Good(m, w.h, p, pr) by { ReachableInv(m, w); }
    if !a.RestoreStep? { QuietSteps(m, w.h, p, pr, a); }
    assert a.RestoreStep? && !a.bySignal;
    OwnReleaseUnlock(m, w.h, p, pr, a.ok);
  }

  /** The step that returns `Ok` from `release_leaving_activation_barred`: the
      barrier is kept, the unit stays masked, and this lease asked for no start. */
  lemma BarredReleaseOk(m: Manager, w: World, p: Pid, a: Action, own: bool)
    requires Reachable(m, w) && !w.h.tampered && Step(m, w, Act(p, a)).Some?
    requires ProcOf(w, p).main != Done(ReleaseBarred, true, own)
    requires ProcOf(Step(m, w, Act(p, a)).value, p).main == Done(ReleaseBarred, true, own)
    ensures var w' := Step(m, w, Act(p, a)).value;
            && own
            && w'.h.lock.None? && w'.h.control.Barrier? && w'.h.load.Masked?
            && !ProcOf(w', p).started && ProcOf(w', p).left
  {
    var pr := ProcOf(w, p);
    assert Good(m, w.h, p, pr) by { ReachableInv(m, w); }
    if !a.RestoreStep? { QuietSteps(m, w.h, p, pr, a); }
    assert a.RestoreStep? && !a.bySignal;
    BarredUnlock(m, w.h, p, pr, a.ok);
  }

  /** However a signal races it, a barred release that reported `Ok` belongs to a
      process that never asks for a start, then or later. */
  lemma BarredReleaseNeverStarts(m: Manager, w: World, p: Pid, own: bool)
    requires Reachable(m, w) && p in w.procs
    requires w.procs[p].main == Done(ReleaseBarred, true, own)
    ensures own && !w.procs[p].started && w.procs[p].left
  {
    ReachableInv(m, w);
    assert Good(m, w.h, p, w.procs[p]);
  }

  /** `release` also answers `Ok` when the slot is already empty. It then left the
      barrier behind exactly when it did not restore itself and the signal thread's
      wait had expired. */
  lemma ReleaseOkLeavesBarrierIff(m: Manager, w: World, p: Pid, own: bool)
    requires Reachable(m, w) && p in w.procs
    requires w.procs[p].main == Done(Release, true, own)
    ensures w.procs[p].left <==> !own && w.procs[p].acked == Some(false)
    ensures w.procs[p].started <==> !w.procs[p].left && w.procs[p].prior
  {
    ReachableInv(m, w);
    assert Good(m, w.h, p, w.procs[p]);
  }
}
