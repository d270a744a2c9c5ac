/**
  `stage` and `restore` as the sequential code they are: whatever fails and whatever
  the environment does between their calls, they perform runs of the transition system.
 */
module LifecycleStage {
  import opened Basics
  import opened Lifecycle
  import opened LifecycleSafety
  import opened LifecycleTheorems
  import opened LifecycleRecovery
  import opened LifecycleOutcomes

  /** A process that holds the lock and is about to stage. */
  const Entering: Proc := Fresh.(main := Delegating)

  /** How the `k`-th call turns out, and what happens on the machine just before it. */
  datatype Oracle = Oracle(
    ok: nat -> bool,
    create: nat -> CreateResult,
    stopTo: nat -> ActiveState,
    before: nat -> seq<EnvEvent>)

  function Calls(ls: seq<Label>): nat
    decreases |ls|
  {
    if ls == [] then 0 else Calls(ls[..|ls| - 1]) + if ls[|ls| - 1].Act? then 1 else 0
  }

  /** The outcome an action carries is the one the oracle has for that call. */
  predicate Reports(o: Oracle, k: nat, a: Action) {
    match a
    case Delegation(ok) => ok == o.ok(k)
    case ShowPrior(ok) => ok == o.ok(k)
    case Create(res) => res == o.create(k)
    case Reload(ok) => ok == o.ok(k)
    case ShowMask(ok) => ok == o.ok(k)
    case Stop(ok, _) => ok == o.ok(k)
    case PollInactive(ok, _) => ok == o.ok(k)
    case PollName(ok, _) => ok == o.ok(k)
    case RestoreStep(_, ok) => ok == o.ok(k)
    case _ => true
  }

  /** A run in which every call turned out as the oracle has it, and only its events happened. */
  predicate Told(o: Oracle, ls: seq<Label>)
    decreases |ls|
  {
    ls == [] ||
    (var l, front := ls[|ls| - 1], ls[..|ls| - 1];
     && Told(o, front)
     && (if l.Act? then Reports(o, Calls(ls), l.a) else l.e in o.before(Calls(front))))
  }

  lemma ToldMore(o: Oracle, ls: seq<Label>, l: Label)
    requires Told(o, ls) && (if l.Act? then Reports(o, Calls(ls) + 1, l.a) else l.e in o.before(Calls(ls)))
    ensures Told(o, ls + [l]) && Calls(ls + [l]) == Calls(ls) + if l.Act? then 1 else 0
  {
    assert (ls + [l])[..|ls|] == ls;
  }

  /** From the `k`-th call on nothing fails and nothing happens in between. */
  ghost predicate Smooth(o: Oracle, k: nat) {
    forall j {:trigger o.ok(j)} {:trigger o.before(j)} :: j >= k ==> o.ok(j) && o.before(j) == []
  }

  predicate Unfailing(ls: seq<Label>) {
    forall l :: l in ls && l.Act? ==> !Miscarried(l.a)
  }

  class Lease {
    const m: Manager
    const p: Pid
    const oracle: Oracle
    var host: Host
    var calls: nat
    // What `stage` mutates: the barrier guard, its inode, and whether to restart.
    var barrier: bool
    var ino: Option<nat>
    var restart: bool
    // The run performed so far.
    ghost const start: Host
    ghost var pr: Proc
    ghost var trace: seq<Label>

    constructor (m: Manager, p: Pid, oracle: Oracle, host: Host)
      ensures this.m == m && this.p == p && this.host == host && this.start == host
      ensures Tracks() && pr == Entering
    {
      this.m, this.p, this.oracle, this.host, this.calls := m, p, oracle, host, 0;
      barrier, ino, restart := false, None, false;
      start, pr, trace := host, Entering, [];
    }

    /** The recorded run leads from the start to `before`, with the outcomes of the oracle. */
    ghost predicate Recorded(before: Host)
      reads this
    {
      LocalRun(m, start, p, Entering, trace) == Next(before, pr) && Told(oracle, trace)
    }

    /** The machine and the staged state are where the recorded run leads. */
    ghost predicate Follows()
      reads this
    {
      Recorded(host) && pr.staged == RestoreState(barrier, restart) && pr.ino == ino
    }

    /** Between two calls. */
    ghost predicate Tracks()
      reads this
    {
      Follows() && calls == Calls(trace)
    }

    /** The environment's turn before a call, which is then under way. */
    method Meanwhile()
      requires Tracks()
      modifies this`host, this`trace, this`calls
      ensures Follows() && calls == Calls(trace) + 1 == old(calls) + 1
      ensures oracle.before(old(calls)) == [] ==> host == old(host)
    {
      var events := oracle.before(calls);
      calls := calls + 1;
      for i := 0 to |events|
        invariant Follows() && calls == Calls(trace) + 1 == old(calls) + 1
        invariant events == [] ==> host == old(host)
      {
        var next := EnvStep(m, host, events[i]);
        if next.Some? {
          Snoc(m, start, p, Entering, trace, Env(events[i]));
          ToldMore(oracle, trace, Env(events[i]));
          trace := trace + [Env(events[i])];
          host := next.value;
        }
      }
    }

    /** Add the action just performed, `before` being the machine it found. */
    ghost method Record(a: Action, before: Host, after: Proc)
      requires Recorded(before) && calls == Calls(trace) + 1 && Reports(oracle, calls, a)
      requires ActStep(m, before, p, pr, a) == Next(host, after)
      requires after.staged == RestoreState(barrier, restart) && after.ino == ino
      modifies this`pr, this`trace
      ensures Tracks() && pr == after
    {
      Snoc(m, start, p, Entering, trace, Act(p, a));
      ToldMore(oracle, trace, Act(p, a));
      trace := trace + [Act(p, a)];
      pr := after;
    }

    /** What an error return leaves: the state staged so far, handed to a full restore. */
    ghost predicate RolledBack()
      reads this
    {
      pr.main == Restoring(Begin(RestoreState(barrier, restart), true), Rollback)
    }

    /** `verify_activation_delegation`. */
    method CheckDelegation() returns (ok: bool)
      requires Tracks() && pr == Entering
      modifies this
      ensures Tracks()
      ensures !ok ==> RolledBack()
      ensures ok ==> pr == Entering.(main := Probing)
    {
      Meanwhile();
      ok := oracle.ok(calls);
      DelegationIsStep(m, host, p, pr, ok);
      Record(Delegation(ok), host, if ok then pr.(main := Probing) else RollBack(pr));
    }

    /** `probe_control_path`: whether a stale barrier is there to adopt. */
    method ProbeControlPath() returns (ok: bool, adopted: bool)
      requires Tracks() && pr == Entering.(main := Probing)
      modifies this
      ensures Tracks() && barrier == old(barrier)
      ensures !ok ==> RolledBack()
      ensures ok ==> pr.main == Showing(adopted) && !barrier
    {
      Meanwhile();
      ok, adopted := !host.control.Foreign?, host.control.Barrier?;
      if adopted {
        ino := Some(host.control.ino);
      }
      ProbeIsStep(m, host, p, pr);
      Record(Probe, host, if ok then pr.(main := Showing(adopted), ino := ino) else RollBack(pr));
    }

    /** Up to the admission of the recorded state. */
    method Admit() returns (ok: bool, adopted: bool, prior: bool)
      requires Tracks() && pr == Entering
      modifies this
      ensures Tracks()
      ensures !ok ==> RolledBack()
      ensures ok ==> pr.prior == prior && barrier == adopted
      ensures ok ==> pr.main == if adopted then Reloading else Creating
    {
      adopted, prior := false, false;
      ok := CheckDelegation();
      if !ok { return; }
      ok, adopted := ProbeControlPath();
      if !ok { return; }
      ok, prior := AdmitShown(adopted);
    }

    /** `admit`, on the state just shown. */
    method AdmitShown(adopted: bool) returns (ok: bool, prior: bool)
      requires Tracks() && pr.main == Showing(adopted) && !barrier
      modifies this
      ensures Tracks()
      ensures !ok ==> RolledBack()
      ensures ok ==> pr.prior == prior && barrier == adopted
      ensures ok ==> pr.main == if adopted then Reloading else Creating
    {
      Meanwhile();
      var shown := oracle.ok(calls);
      ok := shown && Admitted(host.load, host.active, adopted);
      prior := host.active.Active?;
      if ok && adopted { barrier := true; }
      RecordShown(shown, ok, adopted);
    }

    ghost method RecordShown(shown: bool, ok: bool, adopted: bool)
      requires Recorded(host) && calls == Calls(trace) + 1 && shown == oracle.ok(calls)
      requires pr.main == Showing(adopted) && pr.ino == ino && ok == (shown && Admitted(host.load, host.active, adopted))
      requires pr.staged == RestoreState(false, restart) && barrier == (ok && adopted)
      modifies this`pr, this`trace
      ensures Tracks()
      ensures if ok then pr.prior == host.active.Active? && pr.main == (if adopted then Reloading else Creating) else RolledBack()
    {
      ShowIsStep(m, host, p, pr, shown);
      ghost var after := Shown(pr, ok, host.active.Active?);
      ShownLeaves(pr, ok, host.active.Active?);
      Record(ShowPrior(shown), host, after);
    }

    /** Add a step of barring or stopping: it went on to `next`, or the staging rolls back. */
    ghost method RecordBar(a: Action, before: Host, ok: bool, next: Main)
      requires Recorded(before) && calls == Calls(trace) + 1 && Reports(oracle, calls, a)
      requires BarMove(m, before, pr, a, host, RestoreState(barrier, restart), ino, ok, next)
      modifies this`pr, this`trace
      ensures Tracks() && pr.prior == old(pr).prior && (if ok then pr.main == next else RolledBack())
    {
      BarMoveIsStep(m, before, p, pr, a, host, RestoreState(barrier, restart), ino, ok, next);
      Record(a, before, ActStep(m, before, p, pr, a).pr);
    }

    /** `create_barrier`, when there was none to adopt. */
    method MakeBarrier() returns (ok: bool)
      requires Tracks() && pr.main.Creating? && !barrier
      modifies this
      ensures Tracks() && pr.prior == old(pr).prior
      ensures !ok ==> RolledBack()
      ensures ok ==> pr.main.Reloading?
    {
      Meanwhile();
      ghost var found := host;
      var res := oracle.create(calls);
      if host.control.Absent? && !res.NotCreated? {
        var made := host.nextIno;
        host := host.(control := Made(res, made), nextIno := made + 1);
        if res.Created? {
          barrier, ino := true, Some(made);
        }
      }
      ok := barrier;
      RecordBar(Create(res), found, ok, Reloading);
    }

    method LoadBarrier() returns (ok: bool)
      requires Tracks() && pr.main.Reloading?
      modifies this
      ensures Tracks() && pr.prior == old(pr).prior
      ensures !ok ==> RolledBack()
      ensures ok ==> pr.main.Verifying?
    {
      Meanwhile();
      ghost var found := host;
      ok := oracle.ok(calls);
      if ok { host := host.(load := Reloaded(m, host.control)); }
      RecordBar(Reload(ok), found, ok, Verifying);
    }

    method ProveMasked(prior: bool) returns (ok: bool)
      requires Tracks() && pr.main.Verifying? && pr.prior == prior
      modifies this
      ensures Tracks()
      ensures !ok ==> RolledBack()
      ensures ok ==> pr.main == if prior then Stopping else AwaitInactive
    {
      Meanwhile();
      ok := oracle.ok(calls) && host.load.Masked?;
      if ok && prior { restart := true; }
      RecordBar(ShowMask(oracle.ok(calls)), host, ok, if prior then Stopping else AwaitInactive);
    }

    method StopDaemon() returns (ok: bool)
      requires Tracks() && pr.main.Stopping?
      modifies this
      ensures Tracks()
      ensures !ok ==> RolledBack()
      ensures ok ==> pr.main.AwaitInactive?
    {
      Meanwhile();
      ghost var found := host;
      var to := if CanDrift(host.active, oracle.stopTo(calls)) then oracle.stopTo(calls) else host.active;
      ok := oracle.ok(calls);
      host := host.(active := to);
      RecordBar(Stop(ok, to), found, ok, AwaitInactive);
    }

    ghost method RecordStopPoll(ok: bool, expired: bool)
      requires Follows() && calls == Calls(trace) + 1 && ok == oracle.ok(calls) && pr.main.AwaitInactive?
      modifies this`pr, this`trace
      ensures Tracks()
      ensures if !ok || (!host.active.Inactive? && expired) then RolledBack()
              else pr.main == if host.active.Inactive? then AwaitName else AwaitInactive
    {
      PollInactiveIsStep(m, host, p, pr, ok, expired);
      Record(PollInactive(ok, expired), host,
             if !ok || (!host.active.Inactive? && expired) then RollBack(pr)
             else if host.active.Inactive? then pr.(main := AwaitName) else pr);
    }

    ghost method RecordNamePoll(ok: bool, expired: bool)
      requires Follows() && calls == Calls(trace) + 1 && ok == oracle.ok(calls) && pr.main.AwaitName?
      modifies this`pr, this`trace
      ensures Tracks()
      ensures if !ok || (host.named && expired) then RolledBack()
              else if host.named then pr.main.AwaitName?
              else pr.main.Arming? && pr.slot == Some(RestoreState(barrier, restart))
    {
      PollNameIsStep(m, host, p, pr, ok, expired);
      Record(PollName(ok, expired), host,
             if !ok || (host.named && expired) then RollBack(pr)
             else if host.named then pr else pr.(main := Arming, slot := Some(pr.staged)));
    }

    /** `wait_until_inactive`. */
    method AwaitStopped(patience: nat) returns (ok: bool)
      requires Tracks() && pr.main.AwaitInactive?
      modifies this
      ensures Tracks()
      ensures !ok ==> RolledBack()
      ensures ok ==> pr.main.AwaitName?
      ensures !ok ==> !oracle.ok(calls) || calls == old(calls) + patience + 1
    {
      var polls := 0;
      while true
        invariant Tracks() && pr.main.AwaitInactive? && polls <= patience && calls == old(calls) + polls
        decreases patience - polls
      {
        Meanwhile();
        var expired := polls == patience;
        ok := oracle.ok(calls);
        RecordStopPoll(ok, expired);
        if !ok { return; }
        if host.active.Inactive? { return; }
        if expired {
          return false;
        }
        polls := polls + 1;
      }
    }

    /** `wait_until_name_released`. */
    method AwaitUnnamed(patience: nat) returns (ok: bool)
      requires Tracks() && pr.main.AwaitName?
      modifies this
      ensures Tracks()
      ensures !ok ==> RolledBack()
      ensures ok ==> pr.main.Arming? && pr.slot == Some(RestoreState(barrier, restart))
      ensures !ok ==> !oracle.ok(calls) || calls == old(calls) + patience + 1
    {
      var polls := 0;
      while true
        invariant Tracks() && pr.main.AwaitName? && polls <= patience && calls == old(calls) + polls
        decreases patience - polls
      {
        Meanwhile();
        var expired := polls == patience;
        ok := oracle.ok(calls);
        RecordNamePoll(ok, expired);
        if !ok { return; }
        if !host.named { return; }
        if expired {
          return false;
        }
        polls := polls + 1;
      }
    }

    /** `stage`: success hands over the state ready to arm, failure the state to roll back. */
    method Stage(stopPatience: nat, busPatience: nat) returns (ok: bool)
      requires Tracks() && pr == Entering
      modifies this
      ensures Tracks()
      ensures ok ==> pr.main.Arming? && pr.slot == Some(RestoreState(barrier, restart)) && Unfailing(trace)
      ensures !ok ==> RolledBack()
    {
      var adopted, prior;
      ok, adopted, prior := Admit();
      if !ok { return; }
      if !adopted {
        ok := MakeBarrier();
        if !ok { return; }
      }
      ok := LoadBarrier();
      if !ok { return; }
      ok := ProveMasked(prior);
      if !ok { return; }
      if prior {
        ok := StopDaemon();
        if !ok { return; }
      }
      ok := AwaitStopped(stopPatience);
      if !ok { return; }
      ok := AwaitUnnamed(busPatience);
      if ok { StagedUnfailing(m, start, p, trace); }
    }

    // ------------------------------------------------------------------------ restoring

    /** Where a restore stands, with the errors so far. */
    ghost predicate RestoringAt(rs: RestoreState, full: bool, pc: RestorePc, errors: bool, exit: Exit)
      reads this
    {
      Tracks() && pr.main == Restoring(Restoration(rs, full, pc, errors), exit)
    }

    /** Add a step of the restore just performed. */
    ghost method RecordMove(ok: bool, before: Host, rs: RestoreState, full: bool, pc: RestorePc, errors: bool, exit: Exit)
      requires Recorded(before) && calls == Calls(trace) + 1 && ok == oracle.ok(calls)
      requires pr.main.Restoring? && !pr.main.r.pc.RUnlock?
      requires pr.staged == RestoreState(barrier, restart) && pr.ino == ino
      requires var v := RestoreMove(m, before, ino, pr.main.r, ok);
               v.h == host && Restoring(v.r, pr.main.exit) == Restoring(Restoration(rs, full, pc, errors), exit)
      modifies this`pr, this`trace
      ensures RestoringAt(rs, full, pc, errors, exit)
    {
      RestoreIsStep(m, before, p, pr, ok);
      var v := RestoreMove(m, before, ino, pr.main.r, ok);
      Record(RestoreStep(false, ok), before,
             pr.(main := Restoring(v.r, pr.main.exit), started := pr.started || v.start));
    }

    /** The look at the control path: whether the object there is the guard's own, and whether all is well. */
    method LookAtBarrier(ghost rs: RestoreState, ghost exit: Exit) returns (matched: bool, fine: bool)
      requires RestoringAt(rs, true, RLook, false, exit) && rs.barrier
      modifies this
      ensures calls > old(calls) && ino == old(ino)
      ensures RestoringAt(rs, true, if matched then RUnlink else RReload, !fine, exit) && (matched ==> fine)
      ensures Smooth(oracle, old(calls)) ==>
                host == old(host) && fine == Mine(host.control, ino) && matched == (fine && !host.control.Absent?)
    {
      Meanwhile();
      var ok := oracle.ok(calls);
      fine := ok && Mine(host.control, ino);
      matched := fine && !host.control.Absent?;
      RecordMove(ok, host, rs, true, if matched then RUnlink else RReload, !fine, exit);
    }

    /** The unlink by name of whatever is there. */
    method UnlinkBarrier(ghost rs: RestoreState, ghost exit: Exit) returns (done: bool)
      requires RestoringAt(rs, true, RUnlink, false, exit)
      modifies this
      ensures calls > old(calls)
      ensures RestoringAt(rs, true, RReload, !done, exit)
      ensures Smooth(oracle, old(calls)) ==> done == !old(host).control.Absent? && host == Removed(old(host), done)
    {
      Meanwhile();
      ghost var found := host;
      var ok := oracle.ok(calls);
      done := ok && !host.control.Absent?;
      if done { host := host.(control := Absent); }
      RecordMove(ok, found, rs, true, RReload, !done, exit);
    }

    /** `remove_barrier`: a look at the control path, and then an unlink of whatever is there by name. */
    method RemoveBarrier(ghost rs: RestoreState, ghost exit: Exit) returns (done: bool)
      requires RestoringAt(rs, true, RLook, false, exit) && rs.barrier
      modifies this
      ensures calls > old(calls) && RestoringAt(rs, true, RReload, !done, exit)
      ensures Smooth(oracle, old(calls)) ==> done == Mine(old(host).control, old(ino)) && host == Removed(old(host), done)
    {
      var matched;
      matched, done := LookAtBarrier(rs, exit);
      if matched {
        done := UnlinkBarrier(rs, exit);
      }
    }

    /** The manager reloaded; whether the mask can then be looked at. */
    method ReloadAgain(ghost rs: RestoreState, removed: bool, ghost exit: Exit) returns (ok: bool)
      requires RestoringAt(rs, true, RReload, !removed, exit)
      modifies this
      ensures calls > old(calls)
      ensures RestoringAt(rs, true, if ok then RCheck else RStart, !ok || !removed, exit)
      ensures Smooth(oracle, old(calls)) ==> ok && host == InStep(m, old(host))
    {
      Meanwhile();
      ghost var found := host;
      ok := oracle.ok(calls);
      if ok { host := host.(load := Reloaded(m, host.control)); }
      RecordMove(ok, found, rs, true, if ok then RCheck else RStart, !ok || !removed, exit);
    }

    /** The mask proven gone. */
    method ProveUnmasked(ghost rs: RestoreState, removed: bool, ghost exit: Exit) returns (ok: bool)
      requires RestoringAt(rs, true, RCheck, !removed, exit)
      modifies this
      ensures calls > old(calls)
      ensures RestoringAt(rs, true, RStart, !ok, exit)
      ensures Smooth(oracle, old(calls)) ==> host == old(host) && ok == (removed && !host.load.Masked?)
    {
      Meanwhile();
      var shown := oracle.ok(calls);
      ok := removed && shown && !host.load.Masked?;
      RecordMove(shown, host, rs, true, RStart, !ok, exit);
    }

    /** The part of a full restore that undoes the barring. */
    method Unbar(ghost rs: RestoreState, ghost exit: Exit) returns (ok: bool)
      requires RestoringAt(rs, true, RLook, false, exit) && rs.barrier
      modifies this
      ensures calls > old(calls) && RestoringAt(rs, true, RStart, !ok, exit)
      ensures Smooth(oracle, old(calls)) && Mine(old(host).control, old(ino)) ==>
                host == Unbarred(m, old(host)) && ok == !host.load.Masked?
    {
      ghost var calm := Smooth(oracle, calls) && Mine(host.control, ino);
      var removed := RemoveBarrier(rs, exit);
      assert calm ==> removed && host == Removed(old(host), true) && Smooth(oracle, calls);
      ok := ReloadAgain(rs, removed, exit);
      assert calm ==> ok && host == Unbarred(m, old(host)) && Smooth(oracle, calls);
      if ok {
        ok := ProveUnmasked(rs, removed, exit);
      }
    }

    /** The daemon started again if it was stopped. */
    method StartAgain(rs: RestoreState, sofar: bool, ghost exit: Exit) returns (ok: bool)
      requires RestoringAt(rs, true, RStart, !sofar, exit)
      modifies this
      ensures calls > old(calls) && RestoringAt(rs, true, RUnlock, !ok, exit)
      ensures Smooth(oracle, old(calls)) ==>
                host == StartedAgain(old(host), rs) && ok == (sofar && (rs.restart ==> host.load.Loaded?))
    {
      Meanwhile();
      ghost var found := host;
      var asked := oracle.ok(calls);
      ok := sofar;
      if rs.restart {
        if asked && host.load.Loaded? {
          host := host.(active := Active);
        } else {
          ok := false;
        }
      }
      RecordMove(asked, found, rs, true, RUnlock, !ok, exit);
    }

    /** The lock, last of all. */
    method Unlock(rs: RestoreState, full: bool, ok: bool, ghost exit: Exit)
      requires RestoringAt(rs, full, RUnlock, !ok, exit)
      modifies this
      ensures Tracks() && pr.main == Done(exit, ok, true) && host.lock.None?
      ensures Smooth(oracle, old(calls)) ==> host == old(host).(lock := None)
    {
      Meanwhile();
      ghost var found := host;
      host := host.(lock := None);
      UnlockIsStep(m, found, p, pr, oracle.ok(calls));
      Record(RestoreStep(false, oracle.ok(calls)), found,
             pr.(main := Done(exit, ok, true), left := pr.left || !full));
    }

    /** A restore that holds no barrier guard has nothing to remove. */
    method SkipBarrier(ghost rs: RestoreState, ghost exit: Exit)
      requires RestoringAt(rs, true, RLook, false, exit) && !rs.barrier
      modifies this
      ensures RestoringAt(rs, true, RStart, false, exit)
    {
      Meanwhile();
      RecordMove(oracle.ok(calls), host, rs, true, RStart, false, exit);
    }

    /** `restore`: every step even when an earlier one failed, and the lock last. */
    method Restore(rs: RestoreState, full: bool, ghost exit: Exit) returns (ok: bool)
      requires Tracks() && pr.main == Restoring(Begin(rs, full), exit)
      modifies this
      ensures Tracks() && pr.main == Done(exit, ok, true) && host.lock.None?
      ensures Smooth(oracle, old(calls)) && full && rs.barrier && Mine(old(host).control, old(ino)) ==>
                && ok == (!m.base.Masked? && (rs.restart ==> m.base.Loaded?))
                && host == Undone(m, old(host), rs)
    {
      ok := true;
      UndoneInSteps(m, host, rs);
      if full {
        if rs.barrier {
          ok := Unbar(rs, exit);
        } else {
          SkipBarrier(rs, exit);
        }
        ok := StartAgain(rs, ok, exit);
      }
      Unlock(rs, full, ok, exit);
    }

    /** `acquire` once the lock is held: a staging, rolled back if it fails. */
    method Acquire(stopPatience: nat, busPatience: nat) returns (ok: bool)
      requires Tracks() && pr == Entering
      modifies this
      ensures Tracks()
      ensures ok ==> pr.main.Arming? && pr.slot == Some(RestoreState(barrier, restart)) && Unfailing(trace)
      ensures !ok ==> pr.main.Done? && pr.main.exit == Rollback && host.lock.None?
    {
      ok := Stage(stopPatience, busPatience);
      if !ok {
        var restored := Restore(RestoreState(barrier, restart), true, Rollback);
      }
    }
  }

  lemma PollInactiveIsStep(m: Manager, h: Host, p: Pid, pr: Proc, ok: bool, expired: bool)
    requires pr.main.AwaitInactive?
    ensures ActStep(m, h, p, pr, PollInactive(ok, expired)) ==
            Next(h, if !ok || (!h.active.Inactive? && expired) then RollBack(pr)
                    else if h.active.Inactive? then pr.(main := AwaitName) else pr)
  {
  }

  lemma PollNameIsStep(m: Manager, h: Host, p: Pid, pr: Proc, ok: bool, expired: bool)
    requires pr.main.AwaitName?
    ensures ActStep(m, h, p, pr, PollName(ok, expired)) ==
            Next(h, if !ok || (h.named && expired) then RollBack(pr)
                    else if h.named then pr else pr.(main := Arming, slot := Some(pr.staged)))
  {
  }

  lemma RestoreIsStep(m: Manager, h: Host, p: Pid, pr: Proc, ok: bool)
    requires pr.main.Restoring? && !pr.main.r.pc.RUnlock?
    ensures var v := RestoreMove(m, h, pr.ino, pr.main.r, ok);
            ActStep(m, h, p, pr, RestoreStep(false, ok)) ==
            Next(v.h, pr.(main := Restoring(v.r, pr.main.exit), started := pr.started || v.start))
  {
  }

  lemma UnlockIsStep(m: Manager, h: Host, p: Pid, pr: Proc, ok: bool)
    requires pr.main.Restoring? && pr.main.r.pc.RUnlock?
    ensures ActStep(m, h, p, pr, RestoreStep(false, ok)) ==
            Next(h.(lock := None), pr.(main := Done(pr.main.exit, !pr.main.r.errors, true),
                                       left := pr.left || !pr.main.r.full))
  {
  }

  lemma DelegationIsStep(m: Manager, h: Host, p: Pid, pr: Proc, ok: bool)
    requires pr.main.Delegating?
    ensures ActStep(m, h, p, pr, Delegation(ok)) == Next(h, if ok then pr.(main := Probing) else RollBack(pr))
  {
  }

  lemma ProbeIsStep(m: Manager, h: Host, p: Pid, pr: Proc)
    requires pr.main.Probing?
    ensures ActStep(m, h, p, pr, Probe) ==
            Next(h, if h.control.Foreign? then RollBack(pr)
                    else pr.(main := Showing(h.control.Barrier?),
                             ino := if h.control.Barrier? then Some(h.control.ino) else pr.ino))
  {
  }

  /** The recorded activity, and the stale barrier taken over if there is one. */
  function Shown(pr: Proc, ok: bool, prior: bool): Proc
    requires pr.main.Showing?
  {
    if !ok then RollBack(pr)
    else if pr.main.adopted then pr.(prior := prior, main := Reloading, staged := pr.staged.(barrier := true))
    else pr.(prior := prior, main := Creating)
  }

  lemma ShownLeaves(pr: Proc, ok: bool, prior: bool)
    requires pr.main.Showing?
    ensures var s := Shown(pr, ok, prior);
            && s.ino == pr.ino
            && s.staged == (if ok && pr.main.adopted then pr.staged.(barrier := true) else pr.staged)
            && (if ok then s.prior == prior && s.main == (if pr.main.adopted then Reloading else Creating)
                else s.main == Restoring(Begin(pr.staged, true), Rollback))
  {
  }

  lemma ShowIsStep(m: Manager, h: Host, p: Pid, pr: Proc, ok: bool)
    requires pr.main.Showing?
    ensures ActStep(m, h, p, pr, ShowPrior(ok)) ==
            Next(h, Shown(pr, ok && Admitted(h.load, h.active, pr.main.adopted), h.active.Active?))
  {
  }

  function Removed(h: Host, done: bool): Host { if done then h.(control := Absent) else h }

  function InStep(m: Manager, h: Host): Host { h.(load := Reloaded(m, h.control)) }

  function Unbarred(m: Manager, h: Host): Host { InStep(m, Removed(h, true)) }

  function StartedAgain(h: Host, rs: RestoreState): Host {
    if rs.restart && h.load.Loaded? then h.(active := Active) else h
  }

  lemma UndoneInSteps(m: Manager, h: Host, rs: RestoreState)
    ensures Unbarred(m, h).load == m.base
    ensures StartedAgain(Unbarred(m, h), rs).load == m.base
    ensures StartedAgain(Unbarred(m, h), rs).(lock := None) == Undone(m, h, rs)
  {
  }

  /** The barrier gone, the manager in step with the disk, the daemon up again if it was stopped. */
  function Undone(m: Manager, h: Host, rs: RestoreState): Host {
    h.(lock := None, control := Absent, load := m.base,
       active := if rs.restart && m.base.Loaded? then Active else h.active)
  }

  /** Nothing at the control path, or the very object the guard was made for. */
  predicate Mine(c: Control, ino: Option<nat>) {
    c.Absent? || ino == Some(c.ino)
  }

  /** The calls of a run that is ready to arm all succeeded. */
  lemma StagedUnfailing(m: Manager, h: Host, p: Pid, trace: seq<Label>)
    requires var n := LocalRun(m, h, p, Entering, trace); n.Next? && n.pr.main.Arming?
    ensures Unfailing(trace)
  {
    LiftRun(m, h, map[], p, Entering, trace);
    assert [TryLock][..0] == [] && Led(Idle, []);
    RunAccounted(m, World(h, map[p := Entering]), trace, p, [TryLock]);
    LedWithoutFailure(Arming, [TryLock] + Own(trace, p));
    forall l | l in trace && l.Act?
      ensures !Miscarried(l.a)
    {
      OwnHas(m, h, p, Entering, trace, l);
      assert l.a in [TryLock] + Own(trace, p);
    }
  }

  /** Every call of a run of one process is its own. */
  lemma {:induction false} OwnHas(m: Manager, h: Host, p: Pid, pr: Proc, ls: seq<Label>, l: Label)
    requires LocalRun(m, h, p, pr, ls).Next? && l in ls && l.Act?
    ensures l.a in Own(ls, p)
    decreases |ls|
  {
    var n := LocalStep(m, h, p, pr, ls[0]);
    if l != ls[0] {
      OwnHas(m, n.h, p, n.pr, ls[1..], l);
    }
  }

  /** What the four calls from the barrier to the stop do to the machine and the staged state. */
  predicate BarMove(m: Manager, before: Host, pr: Proc, a: Action, after: Host, staged: RestoreState,
                    ino: Option<nat>, ok: bool, next: Main) {
    match a
    case Create(res) =>
      && pr.main.Creating? && next == Reloading
      && ok == (before.control.Absent? && res.Created?)
      && staged == (if ok then pr.staged.(barrier := true) else pr.staged)
      && ino == (if ok then Some(before.nextIno) else pr.ino)
      && after == if before.control.Absent? && !res.NotCreated?
                  then before.(control := Made(res, before.nextIno), nextIno := before.nextIno + 1) else before
    case Reload(done) =>
      && pr.main.Reloading? && next == Verifying && ok == done && staged == pr.staged && ino == pr.ino
      && after == if ok then before.(load := Reloaded(m, before.control)) else before
    case ShowMask(shown) =>
      && pr.main.Verifying? && next == (if pr.prior then Stopping else AwaitInactive)
      && ok == (shown && before.load.Masked?) && after == before && ino == pr.ino
      && staged == if ok && pr.prior then pr.staged.(restart := true) else pr.staged
    case Stop(done, to) =>
      && pr.main.Stopping? && next == AwaitInactive && ok == done && staged == pr.staged && ino == pr.ino
      && CanDrift(before.active, to) && after == before.(active := to)
    case _ => false
  }

  lemma BarMoveIsStep(m: Manager, before: Host, p: Pid, pr: Proc, a: Action, after: Host, staged: RestoreState,
                      ino: Option<nat>, ok: bool, next: Main)
    requires BarMove(m, before, pr, a, after, staged, ino, ok, next)
    ensures var n := ActStep(m, before, p, pr, a);
            && n.Next? && n.h == after && n.pr.staged == staged && n.pr.ino == ino && n.pr.prior == pr.prior
            && n.pr.main == if ok then next else Restoring(Begin(staged, true), Rollback)
  {
  }

  /** One more label on a run of one process. */
  lemma Snoc(m: Manager, h: Host, p: Pid, pr: Proc, ls: seq<Label>, l: Label)
    requires LocalRun(m, h, p, pr, ls).Next?
    ensures var mid := LocalRun(m, h, p, pr, ls);
            LocalRun(m, h, p, pr, ls + [l]) == LocalStep(m, mid.h, p, mid.pr, l)
  {
    var mid := LocalRun(m, h, p, pr, ls);
    LocalChain(m, h, p, pr, ls, [l]);
    assert [l][1..] == [];
    var n := LocalStep(m, mid.h, p, mid.pr, l);
    if n.Next? { assert LocalRun(m, n.h, p, n.pr, []) == n; }
  }

  /** The run a staging records is a run of the whole world, so what it reaches is reachable. */
  lemma StagedIsReachable(m: Manager, w: World, p: Pid, trace: seq<Label>)
    requires Reachable(m, w) && p in w.procs && w.procs[p] == Entering
    requires LocalRun(m, w.h, p, Entering, trace).Next?
    ensures var n := LocalRun(m, w.h, p, Entering, trace); Reachable(m, World(n.h, w.procs[p := n.pr]))
  {
    var w0, ls :| Boot(m, w0) && Run(m, w0, ls) == Some(w);
    LiftRun(m, w.h, w.procs, p, Entering, trace);
    assert w.procs[p := Entering] == w.procs;
    RunChain(m, w0, ls, trace);
  }

  /**
    A staging that succeeds, however it was interfered with short of tampering with the
    control path, has the daemon excluded and knows whether to start it again.
   */
  lemma StagedExcludes(m: Manager, w: World, p: Pid, trace: seq<Label>)
    requires Reachable(m, w) && p in w.procs && w.procs[p] == Entering
    requires var n := LocalRun(m, w.h, p, Entering, trace); n.Next? && n.pr.main.Arming? && !n.h.tampered
    ensures var n := LocalRun(m, w.h, p, Entering, trace);
            && Excluded(m, n.h, n.pr.ino) && n.h.lock == Some(p)
            && n.pr.slot == Some(RestoreState(true, n.pr.prior))
  {
    var n := LocalRun(m, w.h, p, Entering, trace);
    StagedIsReachable(m, w, p, trace);
    var w1 := World(n.h, w.procs[p := n.pr]);
    ReachableInv(m, w1);
    assert Good(m, w1.h, p, w1.procs[p]);
  }
}
