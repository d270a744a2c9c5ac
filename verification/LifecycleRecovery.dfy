/**
  Crash states and the lease that comes after them.

  A script is a run of one process with nothing failing; it shows what the next
  `acquire` and `release` can do from a state left by a killed process.
 */
module LifecycleRecovery {
  import opened Basics
  import opened Lifecycle
  import opened LifecycleSafety
  import opened LifecycleTheorems

  // -------------------------------------------------------- scripts of one process

  /** A step of `p` or of the environment, seen from `p`. */
  function LocalStep(m: Manager, h: Host, p: Pid, pr: Proc, l: Label): Next {
    match l
    case Env(e) => (match EnvStep(m, h, e) case None => Stuck case Some(h') => Next(h', pr))
    case Act(q, a) => if q == p then ActStep(m, h, p, pr, a) else Stuck
  }

  function LocalRun(m: Manager, h: Host, p: Pid, pr: Proc, ls: seq<Label>): Next
    decreases |ls|
  {
    if ls == [] then Next(h, pr)
    else match LocalStep(m, h, p, pr, ls[0])
      case Stuck => Stuck
      case Next(h', pr') => LocalRun(m, h', p, pr', ls[1..])
  }

  lemma {:induction false} LocalChain(m: Manager, h: Host, p: Pid, pr: Proc, xs: seq<Label>, ys: seq<Label>)
    requires LocalRun(m, h, p, pr, xs).Next?
    ensures var mid := LocalRun(m, h, p, pr, xs);
            LocalRun(m, h, p, pr, xs + ys) == LocalRun(m, mid.h, p, mid.pr, ys)
    decreases |xs|
  {
    if xs == [] {
      assert xs + ys == ys;
    } else {
      var n := LocalStep(m, h, p, pr, xs[0]);
      LocalChain(m, n.h, p, n.pr, xs[1..], ys);
      assert (xs + ys)[1..] == xs[1..] + ys;
    }
  }

  /** A script is a run of the whole world that leaves every other process alone. */
  lemma {:induction false} LiftRun(m: Manager, h: Host, procs: map<Pid, Proc>, p: Pid, pr: Proc, ls: seq<Label>)
    requires LocalRun(m, h, p, pr, ls).Next?
    ensures var n := LocalRun(m, h, p, pr, ls);
            Run(m, World(h, procs[p := pr]), ls) == Some(World(n.h, procs[p := n.pr]))
    decreases |ls|
  {
    if ls != [] {
      var n := LocalStep(m, h, p, pr, ls[0]);
      LiftRun(m, n.h, procs, p, n.pr, ls[1..]);
      assert procs[p := pr][p := n.pr] == procs[p := n.pr];
    }
  }

  // -------------------------------------------------------------- the next lease

  /** A crash after the barrier was unlinked and before the manager reloaded. */
  predicate StaleMask(h: Host) {
    h.control.Absent? && h.load.Masked?
  }

  /** A manager under which the unit itself is usable and a barrier bites. */
  predicate Usable(m: Manager) {
    (m.base.Loaded? || m.base.NotFound?) && m.effective
  }

  function Prior(h: Host): bool { h.active.Active? }

  function Adopted(h: Host): nat {
    if h.control.Absent? then h.nextIno else h.control.ino
  }

  /** The host and process right after a successful acquisition from `h`. */
  function HeldHost(h: Host, p: Pid): Host {
    h.(lock := Some(p), control := Barrier(Adopted(h)), load := Masked, active := Inactive,
       named := false, nextIno := if h.control.Absent? then h.nextIno + 1 else h.nextIno)
  }

  function HeldProc(h: Host): Proc {
    var rs := RestoreState(true, Prior(h));
    Fresh.(main := Held, watch := Watching, slot := Some(rs), staged := rs, ino := Some(Adopted(h)), prior := Prior(h), held := true)
  }

  function Admission(p: Pid): seq<Label> {
    [Act(p, TryLock), Act(p, Delegation(true)), Act(p, Probe), Act(p, ShowPrior(true))]
  }

  function Barring(h: Host, p: Pid): seq<Label> {
    (if h.control.Absent? then [Act(p, Create(Created))] else []) + [Act(p, Reload(true)), Act(p, ShowMask(true))]
  }

  function Proving(h: Host, p: Pid): seq<Label> {
    (if Prior(h) then [Act(p, Stop(true, Inactive))] else [])
    + [Act(p, PollInactive(true, false)), Env(NameDropped), Act(p, PollName(true, false)), Act(p, Arm(Armed))]
  }

  function Acquisition(h: Host, p: Pid): seq<Label> {
    Admission(p) + (Barring(h, p) + Proving(h, p))
  }

  function Releasing(p: Pid): seq<Label> {
    [Act(p, MarkFinished), Act(p, Leave(Release)), Act(p, CloseWatch), Act(p, Join), Act(p, Take)]
    + [Act(p, RestoreStep(false, true)), Act(p, RestoreStep(false, true)), Act(p, RestoreStep(false, true)),
       Act(p, RestoreStep(false, true)), Act(p, RestoreStep(false, true)), Act(p, RestoreStep(false, true))]
  }

  /** One label at a time. */
  lemma Advance(m: Manager, h: Host, p: Pid, pr: Proc, l: Label, rest: seq<Label>)
    requires LocalStep(m, h, p, pr, l).Next?
    ensures var n := LocalStep(m, h, p, pr, l);
            LocalRun(m, h, p, pr, [l] + rest) == LocalRun(m, n.h, p, n.pr, rest)
  {
    assert ([l] + rest)[1..] == rest;
  }

  lemma AdmissionRuns(m: Manager, h: Host, p: Pid)
    requires h.lock.None? && !h.control.Foreign?
    ensures var n := LocalRun(m, h, p, Fresh, Admission(p));
            && n.Next? && n.h == h.(lock := Some(p))
            && (Admitted(h.load, h.active, h.control.Barrier?) ==>
                  n.pr == if h.control.Absent? then Fresh.(main := Creating, prior := Prior(h))
                          else Fresh.(main := Reloading, prior := Prior(h),
                                      ino := Some(Adopted(h)), staged := RestoreState(true, false)))
            && (!Admitted(h.load, h.active, h.control.Barrier?) ==>
                  n.pr.main == Restoring(Begin(Fresh.staged, true), Rollback))
  {
    var s3 := [Act(p, ShowPrior(true))];
    var s2 := [Act(p, Probe)] + s3;
    var s1 := [Act(p, Delegation(true))] + s2;
    assert Admission(p) == [Act(p, TryLock)] + s1;
    var h1 := h.(lock := Some(p));
    Advance(m, h, p, Fresh, Act(p, TryLock), s1);
    Advance(m, h1, p, Fresh.(main := Delegating), Act(p, Delegation(true)), s2);
    Advance(m, h1, p, Fresh.(main := Probing), Act(p, Probe), s3);
    var pr3 := if h.control.Absent? then Fresh.(main := Showing(false))
               else Fresh.(main := Showing(true), ino := Some(h.control.ino));
    Advance(m, h1, p, pr3, Act(p, ShowPrior(true)), []);
    assert s3 == s3 + [];
  }

  lemma BarringRuns(m: Manager, h: Host, p: Pid)
    requires Usable(m) && !h.control.Foreign?
    ensures var pr := if h.control.Absent? then Fresh.(main := Creating, prior := Prior(h))
                      else Fresh.(main := Reloading, prior := Prior(h),
                                  ino := Some(Adopted(h)), staged := RestoreState(true, false));
            LocalRun(m, h.(lock := Some(p)), p, pr, Barring(h, p)) ==
            Next(HeldHost(h, p).(active := h.active, named := h.named),
                 Fresh.(main := if Prior(h) then Stopping else AwaitInactive, prior := Prior(h),
                        ino := Some(Adopted(h)), staged := RestoreState(true, Prior(h))))
  {
    var s1 := [Act(p, ShowMask(true))];
    var s0 := [Act(p, Reload(true))] + s1;
    var h1 := HeldHost(h, p).(active := h.active, named := h.named);
    var h0 := h1.(load := h.load);
    var pr0 := Fresh.(main := Reloading, prior := Prior(h), ino := Some(Adopted(h)), staged := RestoreState(true, false));
    if h.control.Absent? {
      assert Barring(h, p) == [Act(p, Create(Created))] + s0;
      Advance(m, h.(lock := Some(p)), p, Fresh.(main := Creating, prior := Prior(h)), Act(p, Create(Created)), s0);
    } else {
      assert Barring(h, p) == s0;
      assert h0 == h.(lock := Some(p));
    }
    Advance(m, h0, p, pr0, Act(p, Reload(true)), s1);
    Advance(m, h1, p, pr0.(main := Verifying), Act(p, ShowMask(true)), []);
    assert s1 == s1 + [];
  }

  lemma ProvingRuns(m: Manager, h: Host, p: Pid)
    requires h.active.Active? || h.active.Inactive?
    ensures LocalRun(m, HeldHost(h, p).(active := h.active, named := h.named), p,
                     Fresh.(main := if Prior(h) then Stopping else AwaitInactive, prior := Prior(h),
                            ino := Some(Adopted(h)), staged := RestoreState(true, Prior(h))), Proving(h, p)) ==
            Next(HeldHost(h, p), HeldProc(h))
  {
    var s3 := [Act(p, Arm(Armed))];
    var s2 := [Act(p, PollName(true, false))] + s3;
    var s1 := [Env(NameDropped)] + s2;
    var s0 := [Act(p, PollInactive(true, false))] + s1;
    var rs := RestoreState(true, Prior(h));
    var pr := Fresh.(main := AwaitInactive, prior := Prior(h), ino := Some(Adopted(h)), staged := rs);
    var h1 := HeldHost(h, p).(named := h.named);
    if Prior(h) {
      assert Proving(h, p) == [Act(p, Stop(true, Inactive))] + s0;
      Advance(m, h1.(active := h.active), p, pr.(main := Stopping), Act(p, Stop(true, Inactive)), s0);
    } else {
      assert Proving(h, p) == s0;
    }
    Advance(m, h1, p, pr, Act(p, PollInactive(true, false)), s1);
    Advance(m, h1, p, pr.(main := AwaitName), Env(NameDropped), s2);
    Advance(m, HeldHost(h, p), p, pr.(main := AwaitName), Act(p, PollName(true, false)), s3);
    Advance(m, HeldHost(h, p), p, pr.(main := Arming, slot := Some(rs)), Act(p, Arm(Armed)), []);
    assert s3 == s3 + [];
  }

  /** From any admitted state, a fault-free acquisition reaches an excluding lease. */
  lemma AcquisitionRuns(m: Manager, h: Host, p: Pid)
    requires Usable(m) && h.lock.None? && !h.control.Foreign?
    requires Admitted(h.load, h.active, h.control.Barrier?)
    ensures LocalRun(m, h, p, Fresh, Acquisition(h, p)) == Next(HeldHost(h, p), HeldProc(h))
  {
    AdmissionRuns(m, h, p);
    LocalChain(m, h, p, Fresh, Admission(p), Barring(h, p) + Proving(h, p));
    var n := LocalRun(m, h, p, Fresh, Admission(p));
    BarringRuns(m, h, p);
    LocalChain(m, n.h, p, n.pr, Barring(h, p), Proving(h, p));
    ProvingRuns(m, h, p);
  }

  /** The host after an undisturbed release of the lease acquired from `h`. */
  function ReleasedHost(m: Manager, h: Host, p: Pid): Host {
    HeldHost(h, p).(lock := None, control := Absent, load := m.base,
                    active := if Prior(h) && m.base.Loaded? then Active else Inactive)
  }

  lemma ClaimRuns(m: Manager, h: Host, p: Pid)
    ensures LocalRun(m, HeldHost(h, p), p, HeldProc(h), Releasing(p)[..5]) ==
            Next(HeldHost(h, p),
                 HeldProc(h).(main := Restoring(Begin(HeldProc(h).staged, true), Release),
                              watch := Gone, slot := None, finished := true, restores := 1))
  {
    var s4 := [Act(p, Take)];
    var s3 := [Act(p, Join)] + s4;
    var s2 := [Act(p, CloseWatch)] + s3;
    var s1 := [Act(p, Leave(Release))] + s2;
    assert Releasing(p)[..5] == [Act(p, MarkFinished)] + s1;
    var hh, pr := HeldHost(h, p), HeldProc(h);
    Advance(m, hh, p, pr, Act(p, MarkFinished), s1);
    var pr1 := pr.(finished := true);
    Advance(m, hh, p, pr1, Act(p, Leave(Release)), s2);
    var pr2 := pr1.(main := Disarming(Release));
    Advance(m, hh, p, pr2, Act(p, CloseWatch), s3);
    var pr3 := pr2.(watch := Gone);
    Advance(m, hh, p, pr3, Act(p, Join), s4);
    Advance(m, hh, p, pr3.(main := Taking(Release)), Act(p, Take), []);
    assert s4 == s4 + [];
  }

  /** The look and the unlink of an undisturbed restore. */
  lemma UnlinkRuns(m: Manager, h: Host, p: Pid, pr: Proc, rest: seq<Label>)
    requires At(h, pr.ino) && pr.main.Restoring? && pr.main.r.pc.RLook? && pr.main.r.rs.barrier
    ensures var l := Act(p, RestoreStep(false, true));
            LocalRun(m, h, p, pr, [l, l] + rest) ==
            LocalRun(m, h.(control := Absent), p, pr.(main := Restoring(pr.main.r.(pc := RReload), pr.main.exit)), rest)
  {
    var l := Act(p, RestoreStep(false, true));
    assert [l, l] + rest == [l] + ([l] + rest);
    Advance(m, h, p, pr, l, [l] + rest);
    Advance(m, h, p, pr.(main := Restoring(pr.main.r.(pc := RUnlink), pr.main.exit)), l, rest);
  }

  lemma UnmaskRuns(m: Manager, h: Host, p: Pid, pr: Proc)
    requires h.control.Absent? && !m.base.Masked? && pr.main.Restoring? && pr.main.r.pc.RReload?
    ensures var l := Act(p, RestoreStep(false, true));
            LocalRun(m, h, p, pr, [l, l]) ==
            Next(h.(load := m.base), pr.(main := Restoring(pr.main.r.(pc := RStart), pr.main.exit)))
  {
    var l := Act(p, RestoreStep(false, true));
    assert [l, l] == [l] + [l] && [l] == [l] + [];
    Advance(m, h, p, pr, l, [l]);
    Advance(m, h.(load := m.base), p, pr.(main := Restoring(pr.main.r.(pc := RCheck), pr.main.exit)), l, []);
  }

  lemma UndoRuns(m: Manager, h: Host, p: Pid, pr: Proc)
    requires Usable(m)
    requires pr.ino == Some(Adopted(h))
    requires pr.main == Restoring(Begin(RestoreState(true, Prior(h)), true), Release)
    ensures LocalRun(m, HeldHost(h, p), p, pr, Releasing(p)[5..9]) ==
            Next(HeldHost(h, p).(control := Absent, load := m.base),
                 pr.(main := Restoring(pr.main.r.(pc := RStart), Release)))
  {
    var l := Act(p, RestoreStep(false, true));
    assert Releasing(p)[5..9] == [l, l] + [l, l];
    UnlinkRuns(m, HeldHost(h, p), p, pr, [l, l]);
    UnmaskRuns(m, HeldHost(h, p).(control := Absent), p, pr.(main := Restoring(pr.main.r.(pc := RReload), Release)));
  }

  lemma StartRuns(m: Manager, h: Host, p: Pid, pr: Proc, r: Restoration)
    requires pr.main == Restoring(r, Release) && r.pc.RStart? && !r.errors
    ensures var n := LocalRun(m, h, p, pr, Releasing(p)[9..]);
            && n.Next?
            && n.h == h.(lock := None, active := if r.rs.restart && h.load.Loaded? then Active else h.active)
            && n.pr.main == Done(Release, r.rs.restart ==> h.load.Loaded?, true)
  {
    var l := Act(p, RestoreStep(false, true));
    assert Releasing(p)[9..] == [l] + [l];
    assert [l] == [l] + [];
    Advance(m, h, p, pr, l, [l]);
    var n := LocalStep(m, h, p, pr, l);
    Advance(m, n.h, p, n.pr, l, []);
  }

  lemma ReleasingRuns(m: Manager, h: Host, p: Pid)
    requires Usable(m)
    ensures var n := LocalRun(m, HeldHost(h, p), p, HeldProc(h), Releasing(p));
            && n.Next? && n.h == ReleasedHost(m, h, p)
            && n.pr.main == Done(Release, Prior(h) ==> m.base.Loaded?, true)
  {
    var xs, ys, zs := Releasing(p)[..5], Releasing(p)[5..9], Releasing(p)[9..];
    assert Releasing(p) == xs + (ys + zs);
    ClaimRuns(m, h, p);
    LocalChain(m, HeldHost(h, p), p, HeldProc(h), xs, ys + zs);
    var n := LocalRun(m, HeldHost(h, p), p, HeldProc(h), xs);
    UndoRuns(m, h, p, n.pr);
    LocalChain(m, n.h, p, n.pr, ys, zs);
    StartRuns(m, HeldHost(h, p).(control := Absent, load := m.base), p,
              n.pr.(main := Restoring(n.pr.main.r.(pc := RStart), Release)), n.pr.main.r.(pc := RStart));
  }

  /** A script of a process the world has not seen yet. */
  lemma FreshScript(m: Manager, w: World, p: Pid, ls: seq<Label>)
    requires p !in w.procs && ls != [] && ls[0].Act? && ls[0].p == p
    requires LocalRun(m, w.h, p, Fresh, ls).Next?
    ensures var n := LocalRun(m, w.h, p, Fresh, ls);
            Run(m, w, ls) == Some(World(n.h, w.procs[p := n.pr]))
  {
    LiftRun(m, w.h, w.procs, p, Fresh, ls);
    var n := LocalStep(m, w.h, p, Fresh, ls[0]);
    assert w.procs[p := Fresh][p := n.pr] == w.procs[p := n.pr];
  }

  /** Acquire and release with nothing failing, from any admitted state. */
  lemma LeaseScript(m: Manager, w: World, p: Pid)
    requires Usable(m) && w.h.lock.None? && !w.h.control.Foreign? && p !in w.procs
    requires Admitted(w.h.load, w.h.active, w.h.control.Barrier?)
    ensures Run(m, w, Acquisition(w.h, p)) == Some(World(HeldHost(w.h, p), w.procs[p := HeldProc(w.h)]))
    ensures exists pr ::
              && Run(m, w, Acquisition(w.h, p) + Releasing(p)) ==
                   Some(World(ReleasedHost(m, w.h, p), w.procs[p := pr]))
              && pr.main == Done(Release, Prior(w.h) ==> m.base.Loaded?, true)
  {
    AcquisitionRuns(m, w.h, p);
    FreshScript(m, w, p, Acquisition(w.h, p));
    ReleasingRuns(m, w.h, p);
    LocalChain(m, w.h, p, Fresh, Acquisition(w.h, p), Releasing(p));
    FreshScript(m, w, p, Acquisition(w.h, p) + Releasing(p));
    var n := LocalRun(m, w.h, p, Fresh, Acquisition(w.h, p) + Releasing(p));
    assert n.pr.main == Done(Release, Prior(w.h) ==> m.base.Loaded?, true);
  }

  /** The two states an acquisition cannot take over: an unlinked barrier the manager has
      not reloaded, and an object at the control path that is no exact barrier. */
  predicate Refused(h: Host) {
    StaleMask(h) || h.control.Foreign?
  }

  /** The steps up to the refusal. */
  function Refusal(h: Host, p: Pid): seq<Label> {
    if h.control.Foreign? then Admission(p)[..3] else Admission(p)
  }

  lemma ForeignRefused(m: Manager, h: Host, p: Pid)
    requires h.lock.None? && h.control.Foreign?
    ensures LocalRun(m, h, p, Fresh, Admission(p)[..3]) == Next(h.(lock := Some(p)), RollBack(Fresh))
  {
    var s2 := [Act(p, Probe)];
    var s1 := [Act(p, Delegation(true))] + s2;
    assert Admission(p)[..3] == [Act(p, TryLock)] + s1;
    var h1 := h.(lock := Some(p));
    Advance(m, h, p, Fresh, Act(p, TryLock), s1);
    Advance(m, h1, p, Fresh.(main := Delegating), Act(p, Delegation(true)), s2);
    Advance(m, h1, p, Fresh.(main := Probing), Act(p, Probe), []);
    assert s2 == s2 + [];
  }

  /** A refused acquisition rolls back without touching anything but the lock. */
  lemma RefusalRuns(m: Manager, w: World, p: Pid)
    requires w.h.lock.None? && p !in w.procs && Refused(w.h)
    ensures exists pr :: Run(m, w, Refusal(w.h, p)) == Some(World(w.h.(lock := Some(p)), w.procs[p := pr]))
                      && pr.main == Restoring(Begin(Fresh.staged, true), Rollback)
  {
    if w.h.control.Foreign? { ForeignRefused(m, w.h, p); } else { AdmissionRuns(m, w.h, p); }
    FreshScript(m, w, p, Refusal(w.h, p));
    var n := LocalRun(m, w.h, p, Fresh, Refusal(w.h, p));
    assert n.pr.main == Restoring(Begin(Fresh.staged, true), Rollback);
  }

  /** Whatever runs, crashes and failures came before: with the lock free and the
      daemon settled, the next fault-free acquisition is refused exactly when the
      barrier is gone and the manager still masks, or a creation left an object that
      is no barrier. Otherwise it adopts any barrier it finds, and its release ends
      with no barrier and the unit as it was. */
  lemma NextLeaseRecovers(m: Manager, w: World, p: Pid)
    requires Reachable(m, w) && !w.h.tampered && Usable(m)
    requires w.h.lock.None? && (w.h.active.Active? || w.h.active.Inactive?) && p !in w.procs
    ensures Refused(w.h) ==>
              exists pr :: Run(m, w, Refusal(w.h, p)) == Some(World(w.h.(lock := Some(p)), w.procs[p := pr]))
                        && pr.main == Restoring(Begin(Fresh.staged, true), Rollback)
    ensures !Refused(w.h) ==>
              && Run(m, w, Acquisition(w.h, p)) == Some(World(HeldHost(w.h, p), w.procs[p := HeldProc(w.h)]))
              && (w.h.control.Barrier? ==> HeldHost(w.h, p).control == w.h.control)
              && exists pr ::
                   && Run(m, w, Acquisition(w.h, p) + Releasing(p)) ==
                        Some(World(ReleasedHost(m, w.h, p), w.procs[p := pr]))
                   && pr.main == Done(Release, Prior(w.h) ==> m.base.Loaded?, true)
  {
    if Refused(w.h) {
      RefusalRuns(m, w, p);
    } else {
      assert Clean(m, w.h) by { ReachableInv(m, w); }
      LeaseScript(m, w, p);
    }
  }

  /** The first refused state exists: a process killed between unlink and reload. */
  lemma KilledBeforeReload(m: Manager, w: World, p: Pid)
    requires Usable(m) && w.h.lock.None? && !w.h.control.Foreign? && p !in w.procs
    requires Admitted(w.h.load, w.h.active, w.h.control.Barrier?)
    ensures exists w' ::
              Run(m, w, Acquisition(w.h, p) + (Releasing(p)[..7] + [Act(p, Kill)])) == Some(w')
              && StaleMask(w'.h) && w'.h.lock.None?
  {
    var l := Act(p, RestoreStep(false, true));
    var hh := HeldHost(w.h, p);
    assert Releasing(p)[..7] + [Act(p, Kill)] == Releasing(p)[..5] + ([l, l] + [Act(p, Kill)]);
    AcquisitionRuns(m, w.h, p);
    ClaimRuns(m, w.h, p);
    LocalChain(m, w.h, p, Fresh, Acquisition(w.h, p), Releasing(p)[..7] + [Act(p, Kill)]);
    LocalChain(m, hh, p, HeldProc(w.h), Releasing(p)[..5], [l, l] + [Act(p, Kill)]);
    var n := LocalRun(m, hh, p, HeldProc(w.h), Releasing(p)[..5]);
    UnlinkRuns(m, n.h, p, n.pr, [Act(p, Kill)]);
    var gone := n.pr.(main := Restoring(n.pr.main.r.(pc := RReload), Release));
    Advance(m, n.h.(control := Absent), p, gone, Act(p, Kill), []);
    assert [Act(p, Kill)] == [Act(p, Kill)] + [];
    FreshScript(m, w, p, Acquisition(w.h, p) + (Releasing(p)[..7] + [Act(p, Kill)]));
  }

  /** A staging whose created object fails the identity test, rolled back. */
  function Misfit(p: Pid): seq<Label> {
    [Act(p, Create(CreatedMisfit))]
    + [Act(p, RestoreStep(false, true)), Act(p, RestoreStep(false, true)), Act(p, RestoreStep(false, true))]
  }

  /** Rolling back a staging that has staged nothing only gives the lock back. */
  lemma EmptyRollbackRuns(m: Manager, h: Host, p: Pid, pr: Proc)
    requires pr.main == Restoring(Begin(Fresh.staged, true), Rollback)
    ensures var l := Act(p, RestoreStep(false, true));
            var n := LocalRun(m, h, p, pr, [l] + ([l] + [l]));
            n.Next? && n.h == h.(lock := None)
  {
    var l := Act(p, RestoreStep(false, true));
    var r := pr.main.r;
    Advance(m, h, p, pr, l, [l] + [l]);
    Advance(m, h, p, pr.(main := Restoring(r.(pc := RStart), Rollback)), l, [l]);
    assert [l] == [l] + [];
    Advance(m, h, p, pr.(main := Restoring(r.(pc := RUnlock), Rollback)), l, []);
  }

  lemma MisfitRuns(m: Manager, h: Host, p: Pid, pr: Proc)
    requires h.control.Absent? && pr.main.Creating? && pr.staged == Fresh.staged
    ensures var n := LocalRun(m, h, p, pr, Misfit(p));
            n.Next? && n.h == h.(lock := None, control := Foreign(h.nextIno), nextIno := h.nextIno + 1)
  {
    var l := Act(p, RestoreStep(false, true));
    assert Misfit(p) == [Act(p, Create(CreatedMisfit))] + ([l] + ([l] + [l]));
    Advance(m, h, p, pr, Act(p, Create(CreatedMisfit)), [l] + ([l] + [l]));
    EmptyRollbackRuns(m, h.(control := Foreign(h.nextIno), nextIno := h.nextIno + 1), p, RollBack(pr));
  }

  /** The second refused state exists without any tampering: a creation that failed its own test. */
  lemma FailedCreationLeavesForeign(m: Manager, w: World, p: Pid)
    requires w.h.lock.None? && w.h.control.Absent? && p !in w.procs
    requires Admitted(w.h.load, w.h.active, false)
    ensures exists w' :: Run(m, w, Admission(p) + Misfit(p)) == Some(w')
                      && w'.h.control.Foreign? && w'.h.lock.None? && w'.h.tampered == w.h.tampered
  {
    AdmissionRuns(m, w.h, p);
    LocalChain(m, w.h, p, Fresh, Admission(p), Misfit(p));
    var n := LocalRun(m, w.h, p, Fresh, Admission(p));
    MisfitRuns(m, n.h, p, n.pr);
    FreshScript(m, w, p, Admission(p) + Misfit(p));
  }

  lemma ForeignKept(m: Manager, h: Host, p: Pid, pr: Proc, a: Action)
    requires Good(m, h, p, pr) && !h.tampered && h.control.Foreign? && ActStep(m, h, p, pr, a).Next?
    ensures ActStep(m, h, p, pr, a).h.control == h.control
  {
    if a.RestoreStep? { ForeignSpared(m, h, p, pr, a.bySignal, a.ok); }
  }

  lemma ForeignSpared(m: Manager, h: Host, p: Pid, pr: Proc, b: bool, ok: bool)
    requires Good(m, h, p, pr) && !h.tampered && h.control.Foreign? && RestoringStep(m, h, pr, b, ok).Next?
    ensures RestoringStep(m, h, pr, b, ok).h.control == h.control
  {
  }

  /** And it is final: no run of any processes clears it short of tampering. */
  lemma {:induction false} ForeignIsFinal(m: Manager, w: World, ls: seq<Label>)
    requires Inv(m, w) && !w.h.tampered && w.h.control.Foreign?
    requires Run(m, w, ls).Some? && !Run(m, w, ls).value.h.tampered
    ensures Run(m, w, ls).value.h.control == w.h.control
    decreases |ls|
  {
    if ls != [] {
      var next := Step(m, w, ls[0]).value;
      ForeignStays(m, w, ls[0]);
      StepKeeps(m, w, ls[0]);
      TamperingStays(m, next, ls[1..]);
      ForeignIsFinal(m, next, ls[1..]);
    }
  }

  lemma ForeignStays(m: Manager, w: World, l: Label)
    requires Inv(m, w) && !w.h.tampered && w.h.control.Foreign? && Step(m, w, l).Some?
    ensures !Step(m, w, l).value.h.tampered ==> Step(m, w, l).value.h.control == w.h.control
  {
    if l.Act? {
      if l.p !in w.procs { FreshGood(m, w.h, l.p); }
      ForeignKept(m, w.h, l.p, ProcOf(w, l.p), l.a);
    }
  }

  lemma {:induction false} TamperingStays(m: Manager, w: World, ls: seq<Label>)
    requires Inv(m, w) && Run(m, w, ls).Some?
    ensures w.h.tampered ==> Run(m, w, ls).value.h.tampered
    decreases |ls|
  {
    if ls != [] {
      StepKeeps(m, w, ls[0]);
      if ls[0].Act? {
        if ls[0].p !in w.procs { FreshGood(m, w.h, ls[0].p); }
        ActKeeps(m, w.h, ls[0].p, ProcOf(w, ls[0].p), ls[0].a);
      }
      TamperingStays(m, Step(m, w, ls[0]).value, ls[1..]);
    }
  }

  lemma KillHolder(m: Manager, w: World, p: Pid)
    requires p in w.procs && w.h.lock == Some(p) && !w.procs[p].main.Dead?
    ensures Step(m, w, Act(p, Kill)) == Some(World(w.h.(lock := None), w.procs[p := Killed(w.procs[p])]))
  {
  }

  /** A crash forgets the daemon: whoever is killed holding a lease it took from a
      running daemon, the next lease is released with `Ok` and the daemon stopped. */
  lemma CrashForgetsTheDaemon(m: Manager, w: World, p: Pid, q: Pid)
    requires Usable(m) && w.h.lock.None? && !w.h.control.Foreign? && p !in w.procs && q !in w.procs && p != q
    requires w.h.active.Active? && Admitted(w.h.load, w.h.active, w.h.control.Barrier?)
    ensures exists crashed, done ::
              && Run(m, w, Acquisition(w.h, p) + [Act(p, Kill)]) == Some(crashed)
              && crashed.h.lock.None? && crashed.h.control.Barrier? && crashed.h.load.Masked?
              && Run(m, crashed, Acquisition(crashed.h, q) + Releasing(q)) == Some(done)
              && ProcOf(done, q).main == Done(Release, true, true)
              && done.h.control.Absent? && done.h.load == m.base && done.h.active.Inactive?
  {
    LeaseScript(m, w, p);
    var held := World(HeldHost(w.h, p), w.procs[p := HeldProc(w.h)]);
    KillHolder(m, held, p);
    RunSnoc(m, w, Acquisition(w.h, p), Act(p, Kill));
    LeaseScript(m, World(held.h.(lock := None), held.procs[p := Killed(HeldProc(w.h))]), q);
  }

  function TimedOut(p: Pid): seq<Label> {
    [Act(p, Signal), Act(p, Wake), Act(p, SigTake), Act(p, RestoreStep(true, true))]
    + [Act(p, Terminate(false)), Act(p, Leave(Release)), Act(p, Join), Act(p, Take)]
  }

  /** `release` can answer `Ok` with the barrier still on disk: the signal thread's
      wait expired first and its terminate hook returned. */
  lemma ReleaseOkCanLeaveTheBarrier(m: Manager, w: World, p: Pid)
    requires Usable(m) && w.h.lock.None? && !w.h.control.Foreign? && p !in w.procs
    requires Admitted(w.h.load, w.h.active, w.h.control.Barrier?)
    ensures exists w' :: Run(m, w, Acquisition(w.h, p) + TimedOut(p)) == Some(w')
                      && ProcOf(w', p).main == Done(Release, true, false)
                      && w'.h.control.Barrier? && w'.h.load.Masked?
  {
    AcquisitionRuns(m, w.h, p);
    LocalChain(m, w.h, p, Fresh, Acquisition(w.h, p), TimedOut(p));
    TimedOutRuns(m, HeldHost(w.h, p), p, HeldProc(w.h));
    FreshScript(m, w, p, Acquisition(w.h, p) + TimedOut(p));
  }

  lemma ExpiredWaitRuns(m: Manager, h: Host, p: Pid, pr: Proc)
    requires pr.main.Held? && pr.watch.Watching? && pr.slot.Some? && !pr.finished
    ensures LocalRun(m, h, p, pr, TimedOut(p)[..4]) ==
            Next(h.(lock := None),
                 pr.(watch := Terminating, interrupted := true, acked := Some(false), slot := None,
                     restores := pr.restores + 1, left := true))
  {
    var s3 := [Act(p, RestoreStep(true, true))];
    var s2 := [Act(p, SigTake)] + s3;
    var s1 := [Act(p, Wake)] + s2;
    assert TimedOut(p)[..4] == [Act(p, Signal)] + s1;
    Advance(m, h, p, pr, Act(p, Signal), s1);
    var p1 := pr.(watch := Waiting, interrupted := true);
    Advance(m, h, p, p1, Act(p, Wake), s2);
    var p2 := p1.(watch := Acked(false), acked := Some(false));
    Advance(m, h, p, p2, Act(p, SigTake), s3);
    var p3 := p2.(watch := SigRestoring(Begin(pr.slot.value, false)), slot := None, restores := pr.restores + 1);
    Advance(m, h, p, p3, Act(p, RestoreStep(true, true)), []);
    assert s3 == s3 + [];
  }

  lemma EmptyTakeRuns(m: Manager, h: Host, p: Pid, pr: Proc)
    requires pr.main == Disarming(Release) && pr.watch.Gone? && pr.slot.None?
    ensures LocalRun(m, h, p, pr, [Act(p, Join)] + [Act(p, Take)]) == Next(h, pr.(main := Done(Release, true, false)))
  {
    Advance(m, h, p, pr, Act(p, Join), [Act(p, Take)]);
    Advance(m, h, p, pr.(main := Taking(Release)), Act(p, Take), []);
    assert [Act(p, Take)] == [Act(p, Take)] + [];
  }

  lemma EmptyReleaseRuns(m: Manager, h: Host, p: Pid, pr: Proc)
    requires pr.main.Held? && pr.watch.Terminating? && pr.slot.None?
    ensures var n := LocalRun(m, h, p, pr, TimedOut(p)[4..]);
            n.Next? && n.h == h && n.pr.main == Done(Release, true, false)
  {
    var s2 := [Act(p, Join)] + [Act(p, Take)];
    var s1 := [Act(p, Leave(Release))] + s2;
    assert TimedOut(p)[4..] == [Act(p, Terminate(false))] + s1;
    Advance(m, h, p, pr, Act(p, Terminate(false)), s1);
    var p1 := pr.(watch := Gone);
    Advance(m, h, p, p1, Act(p, Leave(Release)), s2);
    EmptyTakeRuns(m, h, p, p1.(finished := true, main := Disarming(Release)));
  }

  lemma TimedOutRuns(m: Manager, h: Host, p: Pid, pr: Proc)
    requires pr.main.Held? && pr.watch.Watching? && pr.slot.Some? && !pr.finished
    ensures var n := LocalRun(m, h, p, pr, TimedOut(p));
            n.Next? && n.h == h.(lock := None) && n.pr.main == Done(Release, true, false)
  {
    assert TimedOut(p) == TimedOut(p)[..4] + TimedOut(p)[4..];
    ExpiredWaitRuns(m, h, p, pr);
    LocalChain(m, h, p, pr, TimedOut(p)[..4], TimedOut(p)[4..]);
    var n := LocalRun(m, h, p, pr, TimedOut(p)[..4]);
    EmptyReleaseRuns(m, n.h, p, n.pr);
  }

  // ------------------------------------------------- what the lock alone protects

  /** No step of `p` occurs in the run. */
  predicate Without(ls: seq<Label>, p: Pid) {
    forall l :: l in ls ==> !(l.Act? && l.p == p)
  }

  lemma {:induction false} OthersCannotTakeTheLock(m: Manager, w: World, p: Pid, ls: seq<Label>)
    requires Inv(m, w) && p in w.procs && w.h.lock == Some(p)
    requires Without(ls, p) && Run(m, w, ls).Some?
    ensures var w' := Run(m, w, ls).value;
            p in w'.procs && w'.procs[p] == w.procs[p] && w'.h.lock == Some(p) && Inv(m, w')
    decreases |ls|
  {
    if ls != [] {
      var l := ls[0];
      assert l in ls;
      StepKeeps(m, w, l);
      if l.Act? {
        if l.p !in w.procs { FreshGood(m, w.h, l.p); }
        ActKeeps(m, w.h, l.p, ProcOf(w, l.p), l.a);
      } else {
        EnvKeepsClean(m, w.h, l.e);
      }
      forall k | k in ls[1..] ensures !(k.Act? && k.p == p) { assert k in ls; }
      OthersCannotTakeTheLock(m, Step(m, w, l).value, p, ls[1..]);
    }
  }

  lemma LeaseScriptIsOneProcess(h: Host, r: Pid, p: Pid)
    requires r != p
    ensures Without(Acquisition(h, r) + Releasing(r), p)
  {
  }

  /** The environment may settle any daemon into inactivity. */
  lemma Settle(m: Manager, w: World)
    ensures Step(m, w, Env(Drift(Inactive))) == Some(w.(h := w.h.(active := Inactive)))
  {
  }

  /** From a settled, unlocked world, the others alone can clear the control path. */
  lemma OthersClearTheBarrier(m: Manager, w: World, p: Pid, r: Pid) returns (ls: seq<Label>, w': World)
    requires Usable(m) && Clean(m, w.h) && w.h.lock.None? && w.h.active.Inactive? && !w.h.control.Foreign?
    requires p in w.procs && r !in w.procs
    ensures Without(ls, p) && Run(m, w, ls) == Some(w')
    ensures w'.h.tampered == w.h.tampered && w'.h.control.Absent? && w'.h.active.Inactive?
    ensures p in w'.procs && w'.procs[p] == w.procs[p]
  {
    if w.h.control.Absent? {
      ls, w' := [], w;
    } else {
      LeaseScript(m, w, r);
      LeaseScriptIsOneProcess(w.h, r, p);
      ls := Acquisition(w.h, r) + Releasing(r);
      w' := Run(m, w, ls).value;
    }
  }

  /** With the control path clear, a reload and a start bring the daemon up. */
  function Revival(): seq<Label> {
    [Env(OutsideReload), Env(StartBegins), Env(Drift(Active))]
  }

  lemma RevivalRuns(m: Manager, w: World)
    requires m.base.Loaded? && w.h.control.Absent? && w.h.active.Inactive?
    ensures Run(m, w, Revival()) == Some(w.(h := w.h.(load := m.base, active := Active)))
  {
    var h1 := w.h.(load := m.base);
    var h2 := h1.(active := Settling);
    assert Revival()[1..] == [Env(StartBegins), Env(Drift(Active))];
    assert Revival()[1..][1..] == [Env(Drift(Active))] && [Env(Drift(Active))][1..] == [];
    assert Run(m, w.(h := h2), [Env(Drift(Active))]) == Run(m, w.(h := h2.(active := Active)), []);
    assert Run(m, w.(h := h1), Revival()[1..]) == Run(m, w.(h := h2), [Env(Drift(Active))]);
  }

  /** Once an operating lease has lost the lock, other processes alone can lift the
      exclusion: they need no step of it. Short of an object that is no barrier at the
      control path, they clear it, and a loadable daemon runs again under the operation. */
  lemma UnlockedOperationCanBeOverrun(m: Manager, w: World, p: Pid, r: Pid)
      returns (ls: seq<Label>, w': World)
    requires Reachable(m, w) && !w.h.tampered && Usable(m)
    requires p in w.procs && Operating(w.procs[p]) && w.h.lock != Some(p) && r !in w.procs
    ensures Without(ls, p) && Run(m, w, ls) == Some(w')
    ensures !w'.h.tampered && !w'.h.control.Barrier? && p in w'.procs && w'.procs[p] == w.procs[p]
    ensures !w.h.control.Foreign? ==> w'.h.control.Absent? && (m.base.Loaded? ==> w'.h.active.Active?)
  {
    if w.h.control.Foreign? {
      return [], w;
    }
    ReachableInv(m, w);
    var w1, k := FreeLock(m, w, p);
    var w2 := w1.(h := w1.h.(active := Inactive));
    Settle(m, w1);
    RunSnoc(m, w, k, Env(Drift(Inactive)));
    var k2 := k + [Env(Drift(Inactive))];
    var tail, w3 := OthersClearTheBarrier(m, w2, p, r);
    RunChain(m, w, k2, tail);
    ls, w' := k2 + tail, w3;
    if m.base.Loaded? {
      RevivalRuns(m, w3);
      RunChain(m, w, ls, Revival());
      ls, w' := ls + Revival(), Run(m, w3, Revival()).value;
    }
  }

  lemma {:induction false} RunChain(m: Manager, w: World, xs: seq<Label>, ys: seq<Label>)
    requires Run(m, w, xs).Some?
    ensures Run(m, w, xs + ys) == Run(m, Run(m, w, xs).value, ys)
    decreases |xs|
  {
    if xs == [] {
      assert xs + ys == ys;
    } else {
      RunChain(m, Step(m, w, xs[0]).value, xs[1..], ys);
      assert (xs + ys)[1..] == xs[1..] + ys;
    }
  }

  lemma RunSnoc(m: Manager, w: World, ls: seq<Label>, l: Label)
    requires Run(m, w, ls).Some? && Step(m, Run(m, w, ls).value, l).Some?
    ensures Run(m, w, ls + [l]) == Step(m, Run(m, w, ls).value, l)
  {
    RunChain(m, w, ls, [l]);
    var mid := Run(m, w, ls).value;
    assert [l][1..] == [];
    assert Run(m, mid, [l]) == Run(m, Step(m, mid, l).value, []);
  }

  /** Whoever holds the lock, if not `p`, can be killed. */
  lemma FreeLock(m: Manager, w: World, p: Pid) returns (w': World, ls: seq<Label>)
    requires Inv(m, w) && w.h.lock != Some(p) && p in w.procs
    ensures Without(ls, p) && Run(m, w, ls) == Some(w')
    ensures w'.h == w.h.(lock := None) && w'.procs.Keys == w.procs.Keys && w'.procs[p] == w.procs[p]
  {
    if w.h.lock.None? {
      w', ls := w, [];
    } else {
      var q := w.h.lock.value;
      assert Good(m, w.h, q, w.procs[q]);
      ls := [Act(q, Kill)];
      w' := Step(m, w, ls[0]).value;
      assert ls[1..] == [];
      assert Run(m, w, ls) == Run(m, w', []);
    }
  }

  /** For an operation in progress, exclusion survives everything the others may
      do if and only if its lease still owns the lock. */
  lemma ExclusionIffLock(m: Manager, w: World, p: Pid, r: Pid)
    requires Reachable(m, w) && !w.h.tampered && Usable(m)
    requires p in w.procs && Operating(w.procs[p]) && r !in w.procs
    ensures w.h.lock == Some(p) <==>
              forall ls, w' :: Without(ls, p) && Run(m, w, ls) == Some(w') && !w'.h.tampered ==>
                w'.h.control.Barrier? && w'.h.load.Masked? && w'.h.active.Inactive? && !w'.h.named
  {
    if w.h.lock == Some(p) {
      ReachableInv(m, w);
      forall ls, w' | Without(ls, p) && Run(m, w, ls) == Some(w') && !w'.h.tampered
        ensures w'.h.control.Barrier? && w'.h.load.Masked? && w'.h.active.Inactive? && !w'.h.named
      {
        OthersCannotTakeTheLock(m, w, p, ls);
        assert Good(m, w'.h, p, w'.procs[p]);
      }
    } else {
      var ls, w' := UnlockedOperationCanBeOverrun(m, w, p, r);
    }
  }
}
