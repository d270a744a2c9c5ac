/** The calls behind a lease: which of them were made, in which order, and that none of them failed. */
module LifecycleOutcomes {
  import opened Basics
  import opened Lifecycle

  /** A call of `acquire` that did not succeed. */
  predicate Miscarried(a: Action) {
    match a
    case Delegation(ok) => !ok
    case ShowPrior(ok) => !ok
    case Create(res) => !res.Created?
    case Reload(ok) => !ok
    case ShowMask(ok) => !ok
    case Stop(ok, _) => !ok
    case PollInactive(ok, _) => !ok
    case PollName(ok, _) => !ok
    case Arm(how) => how.Refused?
    case _ => false
  }

  /** When a call ends the acquisition: it failed, or what it found rules the lease out. */
  predicate Ends(h: Host, main: Main, a: Action) {
    Miscarried(a) ||
    match a
    case TryLock => h.lock.Some?
    case Probe => h.control.Foreign?
    case ShowPrior(_) =>
      || h.active.Failed? || h.active.Settling? || h.load.OtherLoad?
      || (h.load.Masked? && main != Showing(true))
    case Create(_) => !h.control.Absent?
    case ShowMask(_) => !h.load.Masked?
    case PollInactive(_, expired) => expired && !h.active.Inactive?
    case PollName(_, expired) => expired && h.named
    case _ => false
  }

  /** What `p` itself did in a run. */
  function Own(ls: seq<Label>, p: Pid): seq<Action>
    decreases |ls|
  {
    if ls == [] then []
    else (if ls[0].Act? && ls[0].p == p then [ls[0].a] else []) + Own(ls[1..], p)
  }

  /** What the signal thread does beside an operation. */
  predicate BySignal(a: Action) {
    a.Signal? || a.Wake? || a.SigTake? || a.Terminate? || (a.RestoreStep? && a.bySignal)
  }

  /**
    The point of the acquisition from which a call that succeeds leads to `main`. A stale
    barrier is adopted in place of a creation, a daemon that was not active is not stopped,
    and a poll is repeated while it is answered, unfavourably, before its deadline.
   */
  function Back(a: Action, main: Main): Option<Main> {
    match a
    case TryLock => Came(main == Delegating, Idle)
    case Delegation(ok) => Came(ok && main == Probing, Delegating)
    case Probe => Came(main.Showing?, Probing)
    case ShowPrior(ok) => Came(ok && (main == Creating || main == Reloading), Showing(main == Reloading))
    case Create(res) => Came(res.Created? && main == Reloading, Creating)
    case Reload(ok) => Came(ok && main == Verifying, Reloading)
    case ShowMask(ok) => Came(ok && (main == Stopping || main == AwaitInactive), Verifying)
    case Stop(ok, _) => Came(ok && main == AwaitInactive, Stopping)
    case PollInactive(ok, expired) => Came(ok && (main == AwaitName || (main == AwaitInactive && !expired)), AwaitInactive)
    case PollName(ok, expired) => Came(ok && (main == Arming || (main == AwaitName && !expired)), AwaitName)
    case Arm(how) => Came(!how.Refused? && main == Held, Arming)
    case _ => Came((a.MarkFinished? || BySignal(a)) && main == Held, Held)
  }

  function Came(possible: bool, from: Main): Option<Main> { if possible then Some(from) else None }

  /** These calls, in this order, lead from nothing to `main`. */
  predicate Led(main: Main, acts: seq<Action>)
    decreases |acts|
  {
    if acts == [] then main.Idle?
    else
      var back := Back(acts[|acts| - 1], main);
      back.Some? && Led(back.value, acts[..|acts| - 1])
  }

  /** Where an acquisition or a lease that has ended, or failed, can be. */
  predicate Over(main: Main) {
    main.Restoring? || main.Done? || main.Dead? || main.LockRefused? || main.Disarming? || main.Taking?
  }

  /** No failed call leads to a lease. */
  lemma {:induction false} LedWithoutFailure(main: Main, acts: seq<Action>)
    requires Led(main, acts)
    ensures forall a :: a in acts ==> !Miscarried(a)
    decreases |acts|
  {
    if acts != [] {
      var a, front := acts[|acts| - 1], acts[..|acts| - 1];
      LedWithoutFailure(Back(a, main).value, front);
      assert acts == front + [a];
    }
  }

  // ------------------------------------------------------------------------ every step

  /** A step ends the acquisition, or is a call that leads on from where it was. */
  predicate Leads(from: Main, a: Action, to: Main) {
    Over(to) || (!Over(from) && Back(a, to) == Some(from))
  }

  lemma LockLeads(h: Host, p: Pid, pr: Proc, a: Action)
    requires AdmitStep(h, p, pr, a).Next? && (a.TryLock? || a.Delegation?)
    ensures var n := AdmitStep(h, p, pr, a).pr; Leads(pr.main, a, n.main) && n.watch == pr.watch
  {
  }

  lemma ProbeLeads(h: Host, p: Pid, pr: Proc, a: Action)
    requires AdmitStep(h, p, pr, a).Next? && a.Probe?
    ensures var n := AdmitStep(h, p, pr, a).pr; Leads(pr.main, a, n.main) && n.watch == pr.watch
  {
  }

  lemma ShowLeads(h: Host, p: Pid, pr: Proc, a: Action)
    requires AdmitStep(h, p, pr, a).Next? && a.ShowPrior?
    ensures var n := AdmitStep(h, p, pr, a).pr; Leads(pr.main, a, n.main) && n.watch == pr.watch
  {
  }

  lemma AdmitLeads(h: Host, p: Pid, pr: Proc, a: Action)
    requires AdmitStep(h, p, pr, a).Next?
    ensures var n := AdmitStep(h, p, pr, a).pr; Leads(pr.main, a, n.main) && n.watch == pr.watch
  {
    if a.Probe? { ProbeLeads(h, p, pr, a); } else if a.ShowPrior? { ShowLeads(h, p, pr, a); } else { LockLeads(h, p, pr, a); }
  }

  lemma CreateLeads(m: Manager, h: Host, pr: Proc, a: Action)
    requires BarStep(m, h, pr, a).Next? && a.Create?
    ensures var n := BarStep(m, h, pr, a).pr; Leads(pr.main, a, n.main) && n.watch == pr.watch
  {
  }

  lemma ReloadLeads(m: Manager, h: Host, pr: Proc, a: Action)
    requires BarStep(m, h, pr, a).Next? && a.Reload?
    ensures var n := BarStep(m, h, pr, a).pr; Leads(pr.main, a, n.main) && n.watch == pr.watch
  {
  }

  lemma MaskLeads(m: Manager, h: Host, pr: Proc, a: Action)
    requires BarStep(m, h, pr, a).Next? && a.ShowMask?
    ensures var n := BarStep(m, h, pr, a).pr; Leads(pr.main, a, n.main) && n.watch == pr.watch
  {
  }

  lemma StopLeads(m: Manager, h: Host, pr: Proc, a: Action)
    requires BarStep(m, h, pr, a).Next? && a.Stop?
    ensures var n := BarStep(m, h, pr, a).pr; Leads(pr.main, a, n.main) && n.watch == pr.watch
  {
  }

  lemma BarLeads(m: Manager, h: Host, pr: Proc, a: Action)
    requires BarStep(m, h, pr, a).Next?
    ensures var n := BarStep(m, h, pr, a).pr; Leads(pr.main, a, n.main) && n.watch == pr.watch
  {
    if a.Create? { CreateLeads(m, h, pr, a); } else if a.Reload? { ReloadLeads(m, h, pr, a); }
    else if a.ShowMask? { MaskLeads(m, h, pr, a); } else { StopLeads(m, h, pr, a); }
  }

  lemma StopPollLeads(h: Host, pr: Proc, a: Action)
    requires ProveStep(h, pr, a).Next? && a.PollInactive?
    ensures var n := ProveStep(h, pr, a).pr; Leads(pr.main, a, n.main) && n.watch == pr.watch
  {
  }

  lemma NamePollLeads(h: Host, pr: Proc, a: Action)
    requires ProveStep(h, pr, a).Next? && a.PollName?
    ensures var n := ProveStep(h, pr, a).pr; Leads(pr.main, a, n.main) && n.watch == pr.watch
  {
  }

  lemma ArmLeads(h: Host, pr: Proc, a: Action)
    requires ProveStep(h, pr, a).Next? && a.Arm?
    ensures var n := ProveStep(h, pr, a).pr; Leads(pr.main, a, n.main) && (n.main.Held? || Over(n.main))
  {
  }

  lemma ProveLeads(h: Host, pr: Proc, a: Action)
    requires ProveStep(h, pr, a).Next?
    ensures var n := ProveStep(h, pr, a).pr;
            Leads(pr.main, a, n.main) && (n.watch == pr.watch || n.main.Held? || Over(n.main))
  {
    if a.PollInactive? { StopPollLeads(h, pr, a); } else if a.PollName? { NamePollLeads(h, pr, a); } else { ArmLeads(h, pr, a); }
  }

  lemma LeaseLeads(h: Host, pr: Proc, a: Action)
    requires LeaseStep(h, pr, a).Next?
    ensures var n := LeaseStep(h, pr, a).pr; Leads(pr.main, a, n.main) && (n.main.Held? || Over(n.main))
  {
  }

  /** The signal thread runs beside a lease and never before there is one. */
  predicate Beside(pr: Proc) { pr.watch.Unarmed? || pr.main.Held? || Over(pr.main) }

  lemma WatchLeads(h: Host, p: Pid, pr: Proc, a: Action)
    requires Beside(pr) && SignalStep(h, p, pr, a).Next? && (a.Signal? || a.Wake? || a.SigTake?)
    ensures var n := SignalStep(h, p, pr, a).pr; Leads(pr.main, a, n.main) && Beside(n)
  {
  }

  lemma EndLeads(h: Host, p: Pid, pr: Proc, a: Action)
    requires Beside(pr) && SignalStep(h, p, pr, a).Next? && (a.Terminate? || a.Kill?)
    ensures var n := SignalStep(h, p, pr, a).pr; Leads(pr.main, a, n.main) && Beside(n)
  {
  }

  lemma SignalLeads(h: Host, p: Pid, pr: Proc, a: Action)
    requires Beside(pr) && SignalStep(h, p, pr, a).Next?
    ensures var n := SignalStep(h, p, pr, a).pr; Leads(pr.main, a, n.main) && Beside(n)
  {
    if a.Terminate? || a.Kill? { EndLeads(h, p, pr, a); } else { WatchLeads(h, p, pr, a); }
  }

  lemma RestoringLeads(m: Manager, h: Host, pr: Proc, b: bool, ok: bool)
    requires Beside(pr) && RestoringStep(m, h, pr, b, ok).Next?
    ensures var n := RestoringStep(m, h, pr, b, ok).pr; Leads(pr.main, RestoreStep(b, ok), n.main) && Beside(n)
  {
  }

  lemma StepLeads(m: Manager, h: Host, p: Pid, pr: Proc, a: Action)
    requires Beside(pr) && ActStep(m, h, p, pr, a).Next?
    ensures var n := ActStep(m, h, p, pr, a).pr; Leads(pr.main, a, n.main) && Beside(n)
  {
    if a.RestoreStep? { RestoringLeads(m, h, pr, a.bySignal, a.ok); }
    else if a.TryLock? || a.Delegation? || a.Probe? || a.ShowPrior? { AdmitLeads(h, p, pr, a); }
    else if a.Create? || a.Reload? || a.ShowMask? || a.Stop? { BarLeads(m, h, pr, a); }
    else if a.PollInactive? || a.PollName? || a.Arm? { ProveLeads(h, pr, a); }
    else if a.Signal? || a.Wake? || a.SigTake? || a.Terminate? || a.Kill? { SignalLeads(h, p, pr, a); }
    else { LeaseLeads(h, pr, a); }
  }

  // ------------------------------------------------------------- calls that end it

  /** Where a call that ends the acquisition leads: a full restore of what was staged, if the lock was had. */
  function Ending(pr: Proc, a: Action): Main {
    if a.TryLock? then LockRefused
    else if a.Arm? && pr.slot.Some? then Restoring(Begin(pr.slot.value, true), ArmRollback)
    else Restoring(Begin(pr.staged, true), Rollback)
  }

  predicate EndsRightly(h: Host, pr: Proc, a: Action, to: Main) {
    if Ends(h, pr.main, a) then to == Ending(pr, a) else !Over(to)
  }

  lemma LockEnds(h: Host, p: Pid, pr: Proc, a: Action)
    requires AdmitStep(h, p, pr, a).Next? && (a.TryLock? || a.Delegation?)
    ensures EndsRightly(h, pr, a, AdmitStep(h, p, pr, a).pr.main)
  {
  }

  lemma ProbeEnds(h: Host, p: Pid, pr: Proc, a: Action)
    requires AdmitStep(h, p, pr, a).Next? && a.Probe?
    ensures EndsRightly(h, pr, a, AdmitStep(h, p, pr, a).pr.main)
  {
  }

  lemma ShowEnds(h: Host, p: Pid, pr: Proc, a: Action)
    requires AdmitStep(h, p, pr, a).Next? && a.ShowPrior?
    ensures EndsRightly(h, pr, a, AdmitStep(h, p, pr, a).pr.main)
  {
  }

  lemma CreateEnds(m: Manager, h: Host, pr: Proc, a: Action)
    requires BarStep(m, h, pr, a).Next? && a.Create?
    ensures EndsRightly(h, pr, a, BarStep(m, h, pr, a).pr.main)
  {
  }

  lemma ReloadEnds(m: Manager, h: Host, pr: Proc, a: Action)
    requires BarStep(m, h, pr, a).Next? && a.Reload?
    ensures EndsRightly(h, pr, a, BarStep(m, h, pr, a).pr.main)
  {
  }

  lemma MaskEnds(m: Manager, h: Host, pr: Proc, a: Action)
    requires BarStep(m, h, pr, a).Next? && a.ShowMask?
    ensures EndsRightly(h, pr, a, BarStep(m, h, pr, a).pr.main)
  {
  }

  lemma StopEnds(m: Manager, h: Host, pr: Proc, a: Action)
    requires BarStep(m, h, pr, a).Next? && a.Stop?
    ensures EndsRightly(h, pr, a, BarStep(m, h, pr, a).pr.main)
  {
  }

  lemma StopPollEnds(h: Host, pr: Proc, a: Action)
    requires ProveStep(h, pr, a).Next? && a.PollInactive?
    ensures EndsRightly(h, pr, a, ProveStep(h, pr, a).pr.main)
  {
  }

  lemma NamePollEnds(h: Host, pr: Proc, a: Action)
    requires ProveStep(h, pr, a).Next? && a.PollName?
    ensures EndsRightly(h, pr, a, ProveStep(h, pr, a).pr.main)
  {
  }

  lemma ArmEnds(h: Host, pr: Proc, a: Action)
    requires ProveStep(h, pr, a).Next? && a.Arm?
    ensures EndsRightly(h, pr, a, ProveStep(h, pr, a).pr.main)
  {
  }

  /** A call of the acquisition ends it exactly if it failed or ruled the lease out. */
  lemma CallEndsIff(m: Manager, h: Host, p: Pid, pr: Proc, a: Action)
    requires ActStep(m, h, p, pr, a).Next?
    requires !Over(pr.main) && !pr.main.Held? && pr.watch.Unarmed? && !a.Kill?
    ensures EndsRightly(h, pr, a, ActStep(m, h, p, pr, a).pr.main)
  {
    if a.TryLock? || a.Delegation? { LockEnds(h, p, pr, a); }
    else if a.Probe? { ProbeEnds(h, p, pr, a); }
    else if a.ShowPrior? { ShowEnds(h, p, pr, a); }
    else if a.Create? { CreateEnds(m, h, pr, a); }
    else if a.Reload? { ReloadEnds(m, h, pr, a); }
    else if a.ShowMask? { MaskEnds(m, h, pr, a); }
    else if a.Stop? { StopEnds(m, h, pr, a); }
    else if a.PollInactive? { StopPollEnds(h, pr, a); }
    else if a.PollName? { NamePollEnds(h, pr, a); }
    else if a.Arm? { ArmEnds(h, pr, a); }
  }

  /** Ended, or led to by its calls. */
  predicate Accounted(pr: Proc, acts: seq<Action>) {
    Beside(pr) && (Over(pr.main) || Led(pr.main, acts))
  }

  lemma StepAccounted(m: Manager, h: Host, p: Pid, pr: Proc, a: Action, acts: seq<Action>)
    requires Accounted(pr, acts) && ActStep(m, h, p, pr, a).Next?
    ensures Accounted(ActStep(m, h, p, pr, a).pr, acts + [a])
  {
    StepLeads(m, h, p, pr, a);
    assert (acts + [a])[..|acts|] == acts;
  }

  // ------------------------------------------------------------------------- whole runs

  /** A step of somebody else leaves `p` where it is. */
  lemma StepOfAnother(m: Manager, w: World, l: Label, p: Pid)
    requires Step(m, w, l).Some? && !(l.Act? && l.p == p)
    ensures ProcOf(Step(m, w, l).value, p) == ProcOf(w, p)
  {
  }

  lemma StepOfOwn(m: Manager, w: World, p: Pid, a: Action, acts: seq<Action>)
    requires Step(m, w, Act(p, a)).Some? && Accounted(ProcOf(w, p), acts)
    ensures Accounted(ProcOf(Step(m, w, Act(p, a)).value, p), acts + [a])
  {
    StepAccounted(m, w.h, p, ProcOf(w, p), a, acts);
  }

  lemma {:induction false} RunAccounted(m: Manager, w: World, ls: seq<Label>, p: Pid, acts: seq<Action>)
    requires Accounted(ProcOf(w, p), acts) && Run(m, w, ls).Some?
    ensures Accounted(ProcOf(Run(m, w, ls).value, p), acts + Own(ls, p))
    decreases |ls|
  {
    if ls == [] {
      assert acts + [] == acts;
    } else {
      var l, next := ls[0], Step(m, w, ls[0]).value;
      if l.Act? && l.p == p {
        StepOfOwn(m, w, p, l.a, acts);
        RunAccounted(m, next, ls[1..], p, acts + [l.a]);
        assert acts + ([l.a] + Own(ls[1..], p)) == (acts + [l.a]) + Own(ls[1..], p);
      } else {
        StepOfAnother(m, w, l, p);
        RunAccounted(m, next, ls[1..], p, acts);
        assert [] + Own(ls[1..], p) == Own(ls[1..], p);
      }
    }
  }

  /**
    Whatever the others and the environment do, a process that is about to arm, or holds its
    lease, made the calls of `acquire` in their order and none of them failed.
   */
  lemma LeaseWithoutFailure(m: Manager, w: World, ls: seq<Label>, p: Pid)
    requires p !in w.procs && Run(m, w, ls).Some?
    requires !Over(ProcOf(Run(m, w, ls).value, p).main)
    ensures Led(ProcOf(Run(m, w, ls).value, p).main, Own(ls, p))
    ensures forall a :: a in Own(ls, p) ==> !Miscarried(a)
  {
    RunAccounted(m, w, ls, p, []);
    assert [] + Own(ls, p) == Own(ls, p);
    LedWithoutFailure(ProcOf(Run(m, w, ls).value, p).main, Own(ls, p));
  }
}
