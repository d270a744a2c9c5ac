/** The control path may be written by others too: what a restore removes. */
module LifecycleForeign {
  import opened Basics
  import opened Lifecycle
  import opened LifecycleSafety
  import opened LifecycleTheorems
  import opened LifecycleRecovery

  /** A restore that has looked, found its own barrier, and not yet unlinked. */
  predicate Unlinking(pr: Proc, bySignal: bool) {
    if bySignal then pr.watch.SigRestoring? && pr.watch.r.pc.RUnlink?
    else pr.main.Restoring? && pr.main.r.pc.RUnlink?
  }

  /** A step's descriptor is the one it had, the barrier it probed or the one it
      created. It writes to the control path only where there was nothing, and clears
      it only by the unlink that follows a matching look. */
  predicate InodeStep(h: Host, pr: Proc, a: Action, n: Next)
    requires n.Next?
  {
    && n.h.nextIno >= h.nextIno
    && (|| n.pr.ino == pr.ino
        || (h.control.Barrier? && n.pr.ino == Some(h.control.ino))
        || (n.pr.ino == Some(h.nextIno) && n.h.nextIno > h.nextIno && n.h.control == Barrier(h.nextIno)))
    && (|| n.h.control == h.control
        || (!n.h.control.Absent? && n.h.control.ino == h.nextIno && h.control.Absent? && n.h.nextIno > h.nextIno)
        || (n.h.control.Absent? && a.RestoreStep? && Unlinking(pr, a.bySignal)))
  }

  lemma AdmitInodes(h: Host, p: Pid, pr: Proc, a: Action)
    requires AdmitStep(h, p, pr, a).Next?
    ensures InodeStep(h, pr, a, AdmitStep(h, p, pr, a))
  {
  }

  lemma BarInodes(m: Manager, h: Host, pr: Proc, a: Action)
    requires BarStep(m, h, pr, a).Next?
    ensures InodeStep(h, pr, a, BarStep(m, h, pr, a))
  {
  }

  lemma ProveInodes(h: Host, pr: Proc, a: Action)
    requires ProveStep(h, pr, a).Next?
    ensures InodeStep(h, pr, a, ProveStep(h, pr, a))
  {
  }

  lemma LeaseInodes(h: Host, pr: Proc, a: Action)
    requires LeaseStep(h, pr, a).Next?
    ensures InodeStep(h, pr, a, LeaseStep(h, pr, a))
  {
  }

  lemma SignalInodes(h: Host, p: Pid, pr: Proc, a: Action)
    requires SignalStep(h, p, pr, a).Next?
    ensures InodeStep(h, pr, a, SignalStep(h, p, pr, a))
  {
  }

  lemma RestoringInodes(m: Manager, h: Host, pr: Proc, a: Action)
    requires a.RestoreStep? && RestoringStep(m, h, pr, a.bySignal, a.ok).Next?
    ensures InodeStep(h, pr, a, RestoringStep(m, h, pr, a.bySignal, a.ok))
  {
  }

  lemma ActInodes(m: Manager, h: Host, p: Pid, pr: Proc, a: Action)
    requires ActStep(m, h, p, pr, a).Next?
    ensures InodeStep(h, pr, a, ActStep(m, h, p, pr, a))
  {
    if a.RestoreStep? { RestoringInodes(m, h, pr, a); }
    else if a.TryLock? || a.Delegation? || a.Probe? || a.ShowPrior? { AdmitInodes(h, p, pr, a); }
    else if a.Create? || a.Reload? || a.ShowMask? || a.Stop? { BarInodes(m, h, pr, a); }
    else if a.PollInactive? || a.PollName? || a.Arm? { ProveInodes(h, pr, a); }
    else if a.Signal? || a.Wake? || a.SigTake? || a.Terminate? || a.Kill? { SignalInodes(h, p, pr, a); }
    else { LeaseInodes(h, pr, a); }
  }

  /** A held inode is old, and not that of a foreign object at the control path. */
  predicate Old(h: Host, ino: Option<nat>) {
    ino.Some? ==> ino.value < h.nextIno && h.control != Foreign(ino.value)
  }

  ghost predicate InodeInv(w: World) {
    && (!w.h.control.Absent? ==> w.h.control.ino < w.h.nextIno)
    && forall p :: p in w.procs ==> Old(w.h, w.procs[p].ino)
  }

  lemma StepKeepsInodes(m: Manager, w: World, l: Label)
    requires InodeInv(w) && Step(m, w, l).Some?
    ensures InodeInv(Step(m, w, l).value)
  {
    var w' := Step(m, w, l).value;
    if l.Act? {
      assert Old(w.h, ProcOf(w, l.p).ino);
      ActInodes(m, w.h, l.p, ProcOf(w, l.p), l.a);
    }
    forall q | q in w'.procs ensures Old(w'.h, w'.procs[q].ino) {
      if !(l.Act? && q == l.p) { assert Old(w.h, w.procs[q].ino); }
    }
  }

  lemma {:induction false} RunKeepsInodes(m: Manager, w: World, ls: seq<Label>)
    requires InodeInv(w) && Run(m, w, ls).Some?
    ensures InodeInv(Run(m, w, ls).value)
    decreases |ls|
  {
    if ls != [] {
      StepKeepsInodes(m, w, ls[0]);
      RunKeepsInodes(m, Step(m, w, ls[0]).value, ls[1..]);
    }
  }

  lemma ReachableInodes(m: Manager, w: World)
    requires Reachable(m, w)
    ensures InodeInv(w)
  {
    var w0, ls :| Boot(m, w0) && Run(m, w0, ls) == Some(w);
    RunKeepsInodes(m, w0, ls);
  }

  /** Whatever is at the control path, no step of any process replaces it, and the only
      step that removes it is the unlink of a restore whose look had matched. */
  lemma OnlyAnUnlinkRemoves(m: Manager, w: World, p: Pid, a: Action)
    requires Reachable(m, w) && Step(m, w, Act(p, a)).Some? && !w.h.control.Absent?
    ensures var w' := Step(m, w, Act(p, a)).value;
            || w'.h.control == w.h.control
            || (w'.h.control.Absent? && a.RestoreStep? && Unlinking(ProcOf(w, p), a.bySignal))
  {
    ActInodes(m, w.h, p, ProcOf(w, p), a);
  }

  // ------------------------------------------------------ between the look and the unlink

  predicate Tampering(l: Label) { l.Env? && l.e.Tamper? }

  /** Somebody wrote to the control path during the run. */
  predicate Tampers(ls: seq<Label>) {
    exists i :: 0 <= i < |ls| && Tampering(ls[i])
  }

  /** The object at the control path is the one behind the descriptor. */
  predicate Holds(h: Host, ino: Option<nat>) {
    !h.control.Absent? && ino == Some(h.control.ino)
  }

  /** A look that went on to the unlink saw the object it holds. */
  lemma LookMatched(m: Manager, w: World, p: Pid, bySignal: bool, ok: bool)
    requires Step(m, w, Act(p, RestoreStep(bySignal, ok))).Some?
    requires Unlinking(ProcOf(Step(m, w, Act(p, RestoreStep(bySignal, ok))).value, p), bySignal)
    ensures var w' := Step(m, w, Act(p, RestoreStep(bySignal, ok))).value; Holds(w'.h, ProcOf(w', p).ino)
  {
  }

  /** No other action of the process brings it to its unlink, moves it on, or touches what it waits to unlink. */
  lemma UnlinkingWaits(m: Manager, h: Host, p: Pid, pr: Proc, a: Action, b: bool)
    requires Good(m, h, p, pr) && ActStep(m, h, p, pr, a).Next? && !a.RestoreStep?
    requires Unlinking(ActStep(m, h, p, pr, a).pr, b)
    ensures var n := ActStep(m, h, p, pr, a);
            Unlinking(pr, b) && n.pr.ino == pr.ino && n.h.control == h.control
  {
    if a.TryLock? || a.Delegation? || a.Probe? || a.ShowPrior? {
      WaitsThroughAdmission(m, h, p, pr, a, b);
    } else if a.Create? || a.Reload? || a.ShowMask? || a.Stop? {
      WaitsThroughBarring(m, h, p, pr, a, b);
    } else if a.PollInactive? || a.PollName? || a.Arm? {
      WaitsThroughProving(m, h, p, pr, a, b);
    } else if a.Signal? || a.Wake? || a.SigTake? || a.Terminate? || a.Kill? {
      WaitsThroughSignals(m, h, p, pr, a, b);
    } else {
      WaitsThroughLease(m, h, p, pr, a, b);
    }
  }

  lemma WaitsThroughAdmission(m: Manager, h: Host, p: Pid, pr: Proc, a: Action, b: bool)
    requires Good(m, h, p, pr) && AdmitStep(h, p, pr, a).Next?
    ensures !Unlinking(AdmitStep(h, p, pr, a).pr, b)
  {
  }

  lemma WaitsThroughBarring(m: Manager, h: Host, p: Pid, pr: Proc, a: Action, b: bool)
    requires Good(m, h, p, pr) && BarStep(m, h, pr, a).Next?
    ensures !Unlinking(BarStep(m, h, pr, a).pr, b)
  {
  }

  lemma WaitsThroughProving(m: Manager, h: Host, p: Pid, pr: Proc, a: Action, b: bool)
    requires Good(m, h, p, pr) && ProveStep(h, pr, a).Next?
    ensures !Unlinking(ProveStep(h, pr, a).pr, b)
  {
  }

  lemma WaitsThroughSignals(m: Manager, h: Host, p: Pid, pr: Proc, a: Action, b: bool)
    requires Good(m, h, p, pr) && SignalStep(h, p, pr, a).Next?
    ensures !Unlinking(SignalStep(h, p, pr, a).pr, b)
  {
  }

  lemma WaitsThroughLease(m: Manager, h: Host, p: Pid, pr: Proc, a: Action, b: bool)
    requires Good(m, h, p, pr) && LeaseStep(h, pr, a).Next? && Unlinking(LeaseStep(h, pr, a).pr, b)
    ensures var n := LeaseStep(h, pr, a); Unlinking(pr, b) && n.pr.ino == pr.ino && n.h.control == h.control
  {
  }

  /** The label is no step of the restore that waits. */
  predicate Apart(l: Label, p: Pid) {
    !(l.Act? && l.p == p && l.a.RestoreStep?)
  }

  /** One step of anybody while a restore waits to unlink: only tampering parts it from its object. */
  lemma WaitingStep(m: Manager, w: World, l: Label, p: Pid, b: bool)
    requires Inv(m, w) && InodeInv(w) && Step(m, w, l).Some? && Apart(l, p)
    requires var w' := Step(m, w, l).value; p in w'.procs && Unlinking(w'.procs[p], b)
    ensures var w' := Step(m, w, l).value;
            && p in w.procs && Unlinking(w.procs[p], b) && w'.procs[p].ino == w.procs[p].ino
            && (Tampering(l) ==> !Holds(w'.h, w'.procs[p].ino))
            && (!Tampering(l) ==> w'.h.control == w.h.control)
  {
    if l.Act? {
      if l.p !in w.procs { FreshGood(m, w.h, l.p); }
      if l.p == p {
        UnlinkingWaits(m, w.h, p, ProcOf(w, p), l.a, b);
      } else {
        OthersLeaveTheOwner(m, w, l.p, l.a, p, b);
      }
    } else {
      assert Old(w.h, w.procs[p].ino);
    }
  }

  lemma OthersLeaveTheOwner(m: Manager, w: World, q: Pid, a: Action, p: Pid, b: bool)
    requires Inv(m, w) && Good(m, w.h, q, ProcOf(w, q)) && ActStep(m, w.h, q, ProcOf(w, q), a).Next?
    requires p != q && p in w.procs && Unlinking(w.procs[p], b)
    ensures ActStep(m, w.h, q, ProcOf(w, q), a).h == w.h
  {
    assert Good(m, w.h, p, w.procs[p]) && Owner(w.procs[p]);
    ActKeeps(m, w.h, q, ProcOf(w, q), a);
  }

  lemma {:induction false} RunPrefix(m: Manager, w: World, ls: seq<Label>)
    requires ls != [] && Run(m, w, ls).Some?
    ensures var n := |ls| - 1;
            Run(m, w, ls[..n]).Some? && Step(m, Run(m, w, ls[..n]).value, ls[n]) == Run(m, w, ls)
    decreases |ls|
  {
    var n := |ls| - 1;
    if n == 0 {
      assert ls[1..] == [] && ls[..0] == [];
    } else {
      RunPrefix(m, Step(m, w, ls[0]).value, ls[1..]);
      assert ls[..n][1..] == ls[1..][..n - 1] && ls[..n][0] == ls[0];
    }
  }

  /** While a restore waits to unlink, what is at the control path is still the object it
      holds if and only if nobody tampered. */
  lemma {:induction false} HoldsIffUntouched(m: Manager, w: World, ls: seq<Label>, p: Pid, b: bool)
    requires Inv(m, w) && InodeInv(w) && p in w.procs && Holds(w.h, w.procs[p].ino)
    requires (forall l :: l in ls ==> Apart(l, p)) && Run(m, w, ls).Some?
    requires var w' := Run(m, w, ls).value; p in w'.procs && Unlinking(w'.procs[p], b)
    ensures var w' := Run(m, w, ls).value;
            && w'.procs[p].ino == w.procs[p].ino
            && (Holds(w'.h, w'.procs[p].ino) <==> !Tampers(ls))
            && Inv(m, w') && InodeInv(w')
    decreases |ls|
  {
    if ls != [] {
      var n := |ls| - 1;
      var front, l := ls[..n], ls[n];
      RunPrefix(m, w, ls);
      var mid := Run(m, w, front).value;
      RunKeeps(m, w, front);
      RunKeepsInodes(m, w, front);
      assert l in ls;
      WaitingStep(m, mid, l, p, b);
      forall k | k in front ensures Apart(k, p) { assert k in ls; }
      HoldsIffUntouched(m, w, front, p, b);
      TampersSnoc(ls);
      StepKeeps(m, mid, l);
      StepKeepsInodes(m, mid, l);
    }
  }

  lemma TampersSnoc(ls: seq<Label>)
    requires ls != []
    ensures var n := |ls| - 1; Tampers(ls) <==> Tampers(ls[..n]) || Tampering(ls[n])
  {
    var n := |ls| - 1;
    if Tampers(ls) {
      var i :| 0 <= i < |ls| && Tampering(ls[i]);
      if i < n { assert Tampering(ls[..n][i]); }
    }
    if Tampers(ls[..n]) {
      var i :| 0 <= i < n && Tampering(ls[..n][i]);
      assert Tampering(ls[i]);
    }
  }

  /** A restore removes an object it does not hold if and only if somebody put one at the
      control path between its matching look and its unlink. */
  lemma UnlinkRemovesForeignIff(m: Manager, w: World, p: Pid, b: bool, ok: bool, ls: seq<Label>)
    requires Reachable(m, w) && Step(m, w, Act(p, RestoreStep(b, ok))).Some?
    requires forall l :: l in ls ==> Apart(l, p)
    requires var looked := Step(m, w, Act(p, RestoreStep(b, ok))).value;
             && Unlinking(ProcOf(looked, p), b) && Run(m, looked, ls).Some?
             && Unlinking(ProcOf(Run(m, looked, ls).value, p), b)
    ensures var looked := Step(m, w, Act(p, RestoreStep(b, ok))).value;
            var now := Run(m, looked, ls).value;
            var done := Step(m, now, Act(p, RestoreStep(b, true)));
            && done.Some? && done.value.h.control.Absent?
            && (!now.h.control.Absent? && !Holds(now.h, ProcOf(now, p).ino) <==>
                Tampers(ls) && !now.h.control.Absent?)
  {
    var looked := Step(m, w, Act(p, RestoreStep(b, ok))).value;
    ReachableInv(m, w);
    ReachableInodes(m, w);
    StepKeeps(m, w, Act(p, RestoreStep(b, ok)));
    StepKeepsInodes(m, w, Act(p, RestoreStep(b, ok)));
    LookMatched(m, w, p, b, ok);
    HoldsIffUntouched(m, looked, ls, p, b);
    UnlinkClears(m, Run(m, looked, ls).value, p, b);
  }

  lemma UnlinkClears(m: Manager, w: World, p: Pid, b: bool)
    requires Unlinking(ProcOf(w, p), b)
    ensures var done := Step(m, w, Act(p, RestoreStep(b, true))); done.Some? && done.value.h.control.Absent?
  {
  }

  /** Such a run: an administrator's file, put at the control path after the look, is removed. */
  lemma ForeignObjectUnlinked(m: Manager, w: World, p: Pid)
    requires Usable(m) && w.h.lock.None? && !w.h.control.Foreign? && p !in w.procs
    requires Admitted(w.h.load, w.h.active, w.h.control.Barrier?)
    ensures var entry := Foreign(HeldHost(w.h, p).nextIno);
            exists w2, w3 ::
              && Run(m, w, Acquisition(w.h, p) + (Releasing(p)[..6] + [Env(Tamper(entry))])) == Some(w2)
              && w2.h.control == entry
              && Step(m, w2, Act(p, RestoreStep(false, true))) == Some(w3) && w3.h.control.Absent?
  {
    var l := Act(p, RestoreStep(false, true));
    var hh := HeldHost(w.h, p);
    var tamper := Env(Tamper(Foreign(hh.nextIno)));
    var script := Releasing(p)[..6] + [tamper];
    assert script == Releasing(p)[..5] + ([l] + ([tamper] + []));
    AcquisitionRuns(m, w.h, p);
    ClaimRuns(m, w.h, p);
    LocalChain(m, w.h, p, Fresh, Acquisition(w.h, p), script);
    LocalChain(m, hh, p, HeldProc(w.h), Releasing(p)[..5], [l] + ([tamper] + []));
    var n := LocalRun(m, hh, p, HeldProc(w.h), Releasing(p)[..5]);
    Advance(m, n.h, p, n.pr, l, [tamper] + []);
    var seen := n.pr.(main := Restoring(n.pr.main.r.(pc := RUnlink), Release));
    Advance(m, n.h, p, seen, tamper, []);
    FreshScript(m, w, p, Acquisition(w.h, p) + script);
    UnlinkClears(m, Run(m, w, Acquisition(w.h, p) + script).value, p, false);
  }
}
