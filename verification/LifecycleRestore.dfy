/** What a restore achieves when nothing else touches the machine while it works. */
module LifecycleRestore {
  import opened Basics
  import opened Lifecycle

  /** How each call of one restore turns out. */
  datatype Outcomes = Outcomes(look: bool, unlink: bool, reload: bool, show: bool, start: bool)

  function Outcome(o: Outcomes, pc: RestorePc): bool {
    match pc
    case RLook => o.look
    case RUnlink => o.unlink
    case RReload => o.reload
    case RCheck => o.show
    case RStart => o.start
    case RUnlock => true
  }

  function Rank(pc: RestorePc): nat {
    match pc
    case RLook => 5
    case RUnlink => 4
    case RReload => 3
    case RCheck => 2
    case RStart => 1
    case RUnlock => 0
  }

  /** A restore taken step by step to its unlock, with nothing in between. */
  function Finish(m: Manager, h: Host, ino: Option<nat>, r: Restoration, o: Outcomes, started: bool): Moved
    decreases Rank(r.pc)
  {
    if r.pc.RUnlock? then Moved(h.(lock := None), r, started)
    else
      var v := RestoreMove(m, h, ino, r, Outcome(o, r.pc));
      Finish(m, v.h, ino, v.r, o, started || v.start)
  }

  lemma FinishStep(m: Manager, h: Host, ino: Option<nat>, r: Restoration, o: Outcomes, started: bool)
    requires !r.pc.RUnlock?
    ensures var v := RestoreMove(m, h, ino, r, Outcome(o, r.pc));
            Finish(m, h, ino, r, o, started) == Finish(m, v.h, ino, v.r, o, started || v.start)
  {
  }

  lemma {:induction false} ErrorsStay(m: Manager, h: Host, ino: Option<nat>, r: Restoration, o: Outcomes, started: bool)
    requires r.errors
    ensures Finish(m, h, ino, r, o, started).r.errors
    decreases Rank(r.pc)
  {
    if !r.pc.RUnlock? {
      var v := RestoreMove(m, h, ino, r, Outcome(o, r.pc));
      ErrorsStay(m, v.h, ino, v.r, o, started || v.start);
    }
  }

  /**
    An uninterrupted restore that reports success: no barrier, the manager in step with
    the disk, not masked, the lock free, and the daemon started exactly if that was asked.
   */
  lemma RestoreOkUndoes(m: Manager, h: Host, ino: Option<nat>, rs: RestoreState, o: Outcomes)
    requires rs.barrier && !Finish(m, h, ino, Begin(rs, true), o, false).r.errors
    ensures var end := Finish(m, h, ino, Begin(rs, true), o, false);
            && end.h.control.Absent? && end.h.load == m.base && !end.h.load.Masked? && end.h.lock.None?
            && end.start == rs.restart
            && end.h.active == if rs.restart then Active else h.active
  {
    var r := Begin(rs, true);
    var a := RestoreMove(m, h, ino, r, o.look);
    FinishStep(m, h, ino, r, o, false);
    if a.r.errors { ErrorsStay(m, a.h, ino, a.r, o, false); }
    if a.r.pc.RUnlink? {
      var u := RestoreMove(m, a.h, ino, a.r, o.unlink);
      FinishStep(m, a.h, ino, a.r, o, false);
      if u.r.errors { ErrorsStay(m, u.h, ino, u.r, o, false); }
      UnbarredUndoes(m, u.h, ino, u.r, o);
    } else {
      UnbarredUndoes(m, a.h, ino, a.r, o);
    }
  }

  lemma UnbarredUndoes(m: Manager, h: Host, ino: Option<nat>, r: Restoration, o: Outcomes)
    requires r.pc.RReload? && h.control.Absent? && !Finish(m, h, ino, r, o, false).r.errors
    ensures var end := Finish(m, h, ino, r, o, false);
            && end.h.control.Absent? && end.h.load == m.base && !end.h.load.Masked? && end.h.lock.None?
            && end.start == r.rs.restart
            && end.h.active == if r.rs.restart then Active else h.active
  {
    var b := RestoreMove(m, h, ino, r, o.reload);
    FinishStep(m, h, ino, r, o, false);
    if b.r.errors { ErrorsStay(m, b.h, ino, b.r, o, false); }
    var c := RestoreMove(m, b.h, ino, b.r, o.show);
    FinishStep(m, b.h, ino, b.r, o, false);
    if c.r.errors { ErrorsStay(m, c.h, ino, c.r, o, false); }
    FinishStep(m, c.h, ino, c.r, o, false);
  }

  /** What goes wrong with the barrier: the look, the unlink, the reload or the check, or a mask that stays. */
  predicate BarrierTrouble(m: Manager, h: Host, ino: Option<nat>, o: Outcomes) {
    || !o.look || !o.reload || !o.show
    || (!h.control.Absent? && (ino != Some(h.control.ino) || !o.unlink))
    || m.base.Masked?
  }

  /**
    An uninterrupted full restore takes every step whatever failed before it: with a guard the
    manager is reloaded, a daemon to be started is asked for, the lock is given back. It
    reports an error exactly if one of its calls failed or did not have its effect.
   */
  lemma RestoreTakesEveryStep(m: Manager, h: Host, ino: Option<nat>, rs: RestoreState, o: Outcomes)
    ensures var end := Finish(m, h, ino, Begin(rs, true), o, false);
            && end.h.lock.None? && end.start == rs.restart
            && (rs.barrier && o.reload ==> end.h.load == Reloaded(m, end.h.control))
            && (!(rs.barrier && o.reload) ==> end.h.load == h.load)
            && (end.r.errors <==> || (rs.barrier && BarrierTrouble(m, h, ino, o))
                                  || (rs.restart && !(o.start && end.h.load.Loaded?)))
            && end.h.active == if rs.restart && o.start && end.h.load.Loaded? then Active else h.active
  {
    var r := Begin(rs, true);
    var a := RestoreMove(m, h, ino, r, o.look);
    FinishStep(m, h, ino, r, o, false);
    if a.r.pc.RUnlink? {
      var u := RestoreMove(m, a.h, ino, a.r, o.unlink);
      FinishStep(m, a.h, ino, a.r, o, false);
      FromReload(m, u.h, ino, u.r, o);
    } else if a.r.pc.RReload? {
      FromReload(m, a.h, ino, a.r, o);
    } else {
      FromStart(m, a.h, ino, a.r, o);
    }
  }

  lemma FromReload(m: Manager, h: Host, ino: Option<nat>, r: Restoration, o: Outcomes)
    requires r.pc.RReload?
    ensures var end := Finish(m, h, ino, r, o, false);
            && end.h.lock.None? && end.start == r.rs.restart && end.h.control == h.control
            && end.h.load == (if o.reload then Reloaded(m, h.control) else h.load)
            && (end.r.errors <==> || r.errors || !o.reload || !o.show || end.h.load.Masked?
                                  || (r.rs.restart && !(o.start && end.h.load.Loaded?)))
            && end.h.active == if r.rs.restart && o.start && end.h.load.Loaded? then Active else h.active
  {
    var b := RestoreMove(m, h, ino, r, o.reload);
    FinishStep(m, h, ino, r, o, false);
    if b.r.pc.RCheck? {
      var c := RestoreMove(m, b.h, ino, b.r, o.show);
      FinishStep(m, b.h, ino, b.r, o, false);
      FromStart(m, c.h, ino, c.r, o);
    } else {
      FromStart(m, b.h, ino, b.r, o);
    }
  }

  lemma FromStart(m: Manager, h: Host, ino: Option<nat>, r: Restoration, o: Outcomes)
    requires r.pc.RStart?
    ensures var end := Finish(m, h, ino, r, o, false);
            && end.h.lock.None? && end.start == r.rs.restart && end.h.control == h.control && end.h.load == h.load
            && (end.r.errors <==> r.errors || (r.rs.restart && !(o.start && h.load.Loaded?)))
            && end.h.active == if r.rs.restart && o.start && h.load.Loaded? then Active else h.active
  {
    FinishStep(m, h, ino, r, o, false);
  }

  /** An uninterrupted restore that finds another inode at the control path leaves it, and says so. */
  lemma RestoreSparesForeign(m: Manager, h: Host, ino: Option<nat>, rs: RestoreState, full: bool, o: Outcomes)
    requires !h.control.Absent? && ino != Some(h.control.ino)
    ensures var end := Finish(m, h, ino, Begin(rs, full), o, false);
            end.h.control == h.control && (full && rs.barrier ==> end.r.errors)
  {
    KeepsControl(m, h, ino, Begin(rs, full), o, false);
  }

  lemma {:induction false} KeepsControl(m: Manager, h: Host, ino: Option<nat>, r: Restoration, o: Outcomes, started: bool)
    requires !h.control.Absent? && ino != Some(h.control.ino) && !r.pc.RUnlink?
    ensures var end := Finish(m, h, ino, r, o, started);
            && end.h.control == h.control
            && (r.errors || (r.pc.RLook? && r.rs.barrier) ==> end.r.errors)
    decreases Rank(r.pc)
  {
    if !r.pc.RUnlock? {
      var v := RestoreMove(m, h, ino, r, Outcome(o, r.pc));
      KeepsControl(m, v.h, ino, v.r, o, started || v.start);
    }
  }
}
