/**
  The lifecycle lease as a labelled transition system.

  The shared machine is a `Host`: the flock, the object at systemd's runtime
  control path, the manager's cached load state (changed only by a reload), the
  unit's active state and the bus name. Every participating process is a `Proc`
  with a main thread, a signal thread, the shared `Option<RestoreState>` slot and
  the `finished` gate. A label carries every outcome the code cannot choose (a
  failing unit call, an expired wait), so a step is a function of state and label.
 */
module Lifecycle {
  import opened Basics

  type Pid = nat

  datatype LoadState = Loaded | NotFound | Masked | OtherLoad
  datatype ActiveState = Active | Inactive | Failed | Settling

  /** What is at the control path. `Barrier` is the exact barrier identity. */
  datatype Control = Absent | Barrier(ino: nat) | Foreign(ino: nat)

  /** How the manager loads the unit without a control file, under a foreign
      one, and whether a barrier at the control path takes effect at all. */
  datatype Manager = Manager(base: LoadState, foreign: LoadState, effective: bool)

  datatype Host = Host(
    lock: Option<Pid>,
    control: Control,
    load: LoadState,
    active: ActiveState,
    named: bool,
    nextIno: nat,
    tampered: bool)

  function Reloaded(m: Manager, c: Control): LoadState {
    match c
    case Absent => m.base
    case Barrier(_) => if m.effective then Masked else m.base
    case Foreign(_) => m.foreign
  }

  // ---------------------------------------------------------------- processes

  /** Whether the state carries the barrier guard, and whether to start the daemon. */
  datatype RestoreState = RestoreState(barrier: bool, restart: bool)

  /** The steps of `restore`, in order. The barrier is looked at and then unlinked by name. */
  datatype RestorePc = RLook | RUnlink | RReload | RCheck | RStart | RUnlock

  /** A running `restore`; `full` tells `RestoreMode::Full` from `LeaveBarred`. */
  datatype Restoration = Restoration(rs: RestoreState, full: bool, pc: RestorePc, errors: bool)

  /** Why the main thread runs a restore. */
  datatype Exit = Rollback | ArmRollback | Release | ReleaseBarred | Drop

  datatype Main =
    | Idle
    | Delegating
    | Probing
    | Showing(adopted: bool)
    | Creating
    | Reloading
    | Verifying
    | Stopping
    | AwaitInactive
    | AwaitName
    | Arming
    | Held
    | Disarming(exit: Exit)
    | Taking(exit: Exit)
    | Restoring(r: Restoration, exit: Exit)
    | Done(exit: Exit, ok: bool, own: bool)
    | LockRefused
    | Dead

  datatype Watch =
    | Unarmed
    | Watching
    | Waiting
    | Acked(ack: bool)
    | SigRestoring(r: Restoration)
    | Terminating
    | Gone

  /** `prior` is the recorded activity, `staged` the state `stage` mutates and `ino`
      the inode behind the barrier guard's descriptor, if there is one. The last four
      fields are history: restores begun, whether a start was asked for, how the
      acknowledgement wait ended, and whether a restore left the barrier. */
  datatype Proc = Proc(
    main: Main,
    watch: Watch,
    slot: Option<RestoreState>,
    staged: RestoreState,
    ino: Option<nat>,
    finished: bool,
    interrupted: bool,
    prior: bool,
    held: bool,
    restores: nat,
    started: bool,
    acked: Option<bool>,
    left: bool)

  const Fresh: Proc :=
    Proc(Idle, Unarmed, None, RestoreState(false, false), None, false, false, false, false, 0, false, None, false)

  // ------------------------------------------------------------------- labels

  datatype EnvEvent =
    | StartBegins
    | Drift(to: ActiveState)
    | NameTaken
    | NameDropped
    | OutsideReload
    | Tamper(entry: Control)

  /** A created object that cannot be proven may yet be an exact barrier, or fail the identity test. */
  datatype CreateResult = Created | CreatedUnproven | CreatedMisfit | NotCreated
  datatype ArmResult = Armed | Skipped | Refused

  datatype Action =
    | TryLock
    | Delegation(ok: bool)
    | Probe
    | ShowPrior(ok: bool)
    | Create(res: CreateResult)
    | Reload(ok: bool)
    | ShowMask(ok: bool)
    | Stop(ok: bool, to: ActiveState)
    | PollInactive(ok: bool, expired: bool)
    | PollName(ok: bool, expired: bool)
    | Arm(how: ArmResult)
    | MarkFinished
    | Leave(exit: Exit)
    | CloseWatch
    | Join
    | Take
    | Signal
    | Wake
    | SigTake
    | RestoreStep(bySignal: bool, ok: bool)
    | Terminate(dies: bool)
    | Kill

  datatype Label = Env(e: EnvEvent) | Act(p: Pid, a: Action)

  // -------------------------------------------------------- environment steps

  /** A running unit may move anywhere; a stopped one only from failed to inactive. */
  predicate CanDrift(a: ActiveState, b: ActiveState) {
    a == b || a.Active? || a.Settling? || (a.Failed? && b.Inactive?)
  }

  function EnvStep(m: Manager, h: Host, e: EnvEvent): Option<Host> {
    match e
    case StartBegins =>
      // Activation needs a loaded unit: a mask refuses it.
      if h.load.Loaded? && (h.active.Inactive? || h.active.Failed?)
      then Some(h.(active := Settling)) else None
    case Drift(to) => if CanDrift(h.active, to) then Some(h.(active := to)) else None
    case NameTaken =>
      if h.active.Active? || h.active.Settling? then Some(h.(named := true)) else None
    case NameDropped => Some(h.(named := false))
    case OutsideReload => Some(h.(load := Reloaded(m, h.control)))
    case Tamper(entry) =>
      if entry.Absent? || entry.ino == h.nextIno
      then Some(h.(control := entry, nextIno := h.nextIno + 1, tampered := true)) else None
  }

  // ------------------------------------------------------------ process steps

  /** `admit`: which recorded states may take the lease. */
  predicate Admitted(load: LoadState, active: ActiveState, adopted: bool) {
    && (load.Loaded? || load.NotFound? || (load.Masked? && adopted))
    && (active.Active? || active.Inactive?)
  }

  function Begin(rs: RestoreState, full: bool): Restoration {
    Restoration(rs, full, if full then RLook else RUnlock, false)
  }

  function RollBack(pr: Proc): Proc {
    pr.(main := Restoring(Begin(pr.staged, true), Rollback), restores := pr.restores + 1)
  }

  datatype Moved = Moved(h: Host, r: Restoration, start: bool)

  /** One step of `restore` before the unlock. Every step runs even when an
      earlier one failed; `start` says the unit manager was asked to start. */
  function RestoreMove(m: Manager, h: Host, ino: Option<nat>, r: Restoration, ok: bool): Moved
    requires !r.pc.RUnlock?
  {
    match r.pc
    case RLook =>
      if !r.rs.barrier then Moved(h, r.(pc := RStart), false)
      else if !ok then Moved(h, r.(pc := RReload, errors := true), false)
      else if h.control.Absent? then Moved(h, r.(pc := RReload), false)
      else if ino != Some(h.control.ino) then Moved(h, r.(pc := RReload, errors := true), false)
      else Moved(h, r.(pc := RUnlink), false)
    case RUnlink =>
      // Whatever is at the path by now goes.
      if !ok || h.control.Absent? then Moved(h, r.(pc := RReload, errors := true), false)
      else Moved(h.(control := Absent), r.(pc := RReload), false)
    case RReload =>
      if ok then Moved(h.(load := Reloaded(m, h.control)), r.(pc := RCheck), false)
      else Moved(h, r.(pc := RStart, errors := true), false)
    case RCheck =>
      Moved(h, r.(pc := RStart, errors := r.errors || !ok || h.load.Masked?), false)
    case RStart =>
      if !r.rs.restart then Moved(h, r.(pc := RUnlock), false)
      else if ok && h.load.Loaded? then Moved(h.(active := Active), r.(pc := RUnlock), true)
      else Moved(h, r.(pc := RUnlock, errors := true), true)
  }

  datatype Next = Stuck | Next(h: Host, pr: Proc)

  /** `acquire` and `stage` up to the admission of the recorded state. */
  function AdmitStep(h: Host, p: Pid, pr: Proc, a: Action): Next {
    if a.TryLock? then
      if !pr.main.Idle? then Stuck
      else if h.lock.None? then Next(h.(lock := Some(p)), pr.(main := Delegating))
      else Next(h, pr.(main := LockRefused))
    else if a.Delegation? then
      if !pr.main.Delegating? then Stuck
      else Next(h, if a.ok then pr.(main := Probing) else RollBack(pr))
    else if a.Probe? then
      if !pr.main.Probing? then Stuck else
      (match h.control
       case Absent => Next(h, pr.(main := Showing(false)))
       case Barrier(i) => Next(h, pr.(main := Showing(true), ino := Some(i)))
       case Foreign(_) => Next(h, RollBack(pr)))
    else if a.ShowPrior? then
      if !pr.main.Showing? then Stuck
      else if !a.ok || !Admitted(h.load, h.active, pr.main.adopted) then Next(h, RollBack(pr))
      else
        var rec := pr.(prior := h.active.Active?);
        if pr.main.adopted then Next(h, rec.(main := Reloading, staged := pr.staged.(barrier := true)))
        else Next(h, rec.(main := Creating))
    else Stuck
  }

  /** What an exclusive creation leaves at the control path, proven or not. */
  function Made(res: CreateResult, ino: nat): Control {
    if res.CreatedMisfit? then Foreign(ino) else Barrier(ino)
  }

  /** `stage` from the barrier to the stop. */
  function BarStep(m: Manager, h: Host, pr: Proc, a: Action): Next {
    if a.Create? then
      if !pr.main.Creating? then Stuck
      else if !h.control.Absent? || a.res.NotCreated? then Next(h, RollBack(pr))
      else
        var made := h.(control := Made(a.res, h.nextIno), nextIno := h.nextIno + 1);
        if !a.res.Created? then Next(made, RollBack(pr))
        else Next(made, pr.(main := Reloading, staged := pr.staged.(barrier := true), ino := Some(h.nextIno)))
    else if a.Reload? then
      if !pr.main.Reloading? then Stuck
      else if !a.ok then Next(h, RollBack(pr))
      else Next(h.(load := Reloaded(m, h.control)), pr.(main := Verifying))
    else if a.ShowMask? then
      if !pr.main.Verifying? then Stuck
      else if !a.ok || !h.load.Masked? then Next(h, RollBack(pr))
      else if pr.prior then Next(h, pr.(main := Stopping, staged := pr.staged.(restart := true)))
      else Next(h, pr.(main := AwaitInactive))
    else if a.Stop? then
      if !pr.main.Stopping? || !CanDrift(h.active, a.to) then Stuck
      else Next(h.(active := a.to), if a.ok then pr.(main := AwaitInactive) else RollBack(pr))
    else Stuck
  }

  /** The two proofs of inactivity and the arming of the signal watch. */
  function ProveStep(h: Host, pr: Proc, a: Action): Next {
    if a.PollInactive? then
      if !pr.main.AwaitInactive? then Stuck
      else if !a.ok then Next(h, RollBack(pr))
      else if h.active.Inactive? then Next(h, pr.(main := AwaitName))
      else Next(h, if a.expired then RollBack(pr) else pr)
    else if a.PollName? then
      if !pr.main.AwaitName? then Stuck
      else if !a.ok then Next(h, RollBack(pr))
      else if !h.named then Next(h, pr.(main := Arming, slot := Some(pr.staged)))
      else Next(h, if a.expired then RollBack(pr) else pr)
    else if a.Arm? then
      if !pr.main.Arming? || pr.slot.None? then Stuck else
      (match a.how
       case Armed => Next(h, pr.(main := Held, watch := Watching, held := true))
       case Skipped => Next(h, pr.(main := Held, held := true))
       case Refused =>
         Next(h, pr.(main := Restoring(Begin(pr.slot.value, true), ArmRollback),
                     slot := None, restores := pr.restores + 1)))
    else Stuck
  }

  /** The lease's own methods, up to the claim on the restore state. */
  function LeaseStep(h: Host, pr: Proc, a: Action): Next {
    if a.MarkFinished? then
      if !pr.main.Held? then Stuck else Next(h, pr.(finished := true))
    else if a.Leave? then
      if !pr.main.Held? || a.exit.Rollback? || a.exit.ArmRollback? then Stuck
      else Next(h, pr.(finished := true, main := Disarming(a.exit)))
    else if a.CloseWatch? then
      if !pr.main.Disarming? || !pr.watch.Watching? then Stuck
      else Next(h, pr.(watch := Gone))
    else if a.Join? then
      if !pr.main.Disarming? || !(pr.watch.Unarmed? || pr.watch.Gone?) then Stuck
      else Next(h, pr.(main := Taking(pr.main.exit)))
    else if a.Take? then
      if !pr.main.Taking? then Stuck
      else if pr.slot.None? then
        // `release` and drop report success; the barred release reports an error.
        Next(h, pr.(main := Done(pr.main.exit, !pr.main.exit.ReleaseBarred?, false)))
      else
        Next(h, pr.(main := Restoring(Begin(pr.slot.value, !pr.main.exit.ReleaseBarred?), pr.main.exit),
                    slot := None, restores := pr.restores + 1))
    else Stuck
  }

  /** The signal thread, up to the claim on the restore state, and both deaths. */
  function SignalStep(h: Host, p: Pid, pr: Proc, a: Action): Next {
    if a.Signal? then
      if !pr.watch.Watching? then Stuck
      else Next(h, pr.(watch := Waiting, interrupted := true))
    else if a.Wake? then
      // Woken by the acknowledgement, or by the timeout when there is none.
      if !pr.watch.Waiting? then Stuck else Next(h, pr.(watch := Acked(pr.finished), acked := Some(pr.finished)))
    else if a.SigTake? then
      if !pr.watch.Acked? then Stuck
      else if pr.slot.None? then Next(h, pr.(watch := Terminating))
      else Next(h, pr.(watch := SigRestoring(Begin(pr.slot.value, pr.watch.ack)),
                       slot := None, restores := pr.restores + 1))
    else if a.Terminate? then
      if !pr.watch.Terminating? then Stuck
      else if a.dies then Next(Released(h, p), Killed(pr))
      else Next(h, pr.(watch := Gone))
    else if a.Kill? then
      if pr.main.Dead? then Stuck else Next(Released(h, p), Killed(pr))
    else Stuck
  }

  /** One step of the restore the main thread or the signal thread is running. */
  function RestoringStep(m: Manager, h: Host, pr: Proc, bySignal: bool, ok: bool): Next {
    if bySignal then
      if !pr.watch.SigRestoring? then Stuck
      else if pr.watch.r.pc.RUnlock? then
        Next(h.(lock := None), pr.(watch := Terminating, left := pr.left || !pr.watch.r.full))
      else
        var v := RestoreMove(m, h, pr.ino, pr.watch.r, ok);
        Next(v.h, pr.(watch := SigRestoring(v.r), started := pr.started || v.start))
    else
      if !pr.main.Restoring? then Stuck
      else if pr.main.r.pc.RUnlock? then
        Next(h.(lock := None), pr.(main := Done(pr.main.exit, !pr.main.r.errors, true),
                                   left := pr.left || !pr.main.r.full))
      else
        var v := RestoreMove(m, h, pr.ino, pr.main.r, ok);
        Next(v.h, pr.(main := Restoring(v.r, pr.main.exit), started := pr.started || v.start))
  }

  function ActStep(m: Manager, h: Host, p: Pid, pr: Proc, a: Action): Next {
    if a.RestoreStep? then RestoringStep(m, h, pr, a.bySignal, a.ok)
    else if a.TryLock? || a.Delegation? || a.Probe? || a.ShowPrior? then AdmitStep(h, p, pr, a)
    else if a.Create? || a.Reload? || a.ShowMask? || a.Stop? then BarStep(m, h, pr, a)
    else if a.PollInactive? || a.PollName? || a.Arm? then ProveStep(h, pr, a)
    else if a.Signal? || a.Wake? || a.SigTake? || a.Terminate? || a.Kill? then SignalStep(h, p, pr, a)
    else LeaseStep(h, pr, a)
  }

  /** The kernel drops a dead process's flock; nothing else is undone. */
  function Released(h: Host, p: Pid): Host {
    if h.lock == Some(p) then h.(lock := None) else h
  }

  function Killed(pr: Proc): Proc {
    pr.(main := Dead, watch := Gone, slot := None)
  }

  // --------------------------------------------------------------- whole runs

  datatype World = World(h: Host, procs: map<Pid, Proc>)

  function ProcOf(w: World, p: Pid): Proc {
    if p in w.procs then w.procs[p] else Fresh
  }

  function Step(m: Manager, w: World, l: Label): Option<World> {
    match l
    case Env(e) =>
      (match EnvStep(m, w.h, e)
       case None => None
       case Some(h) => Some(w.(h := h)))
    case Act(p, a) =>
      (match ActStep(m, w.h, p, ProcOf(w, p), a)
       case Stuck => None
       case Next(h, pr) => Some(World(h, w.procs[p := pr])))
  }

  function Run(m: Manager, w: World, ls: seq<Label>): Option<World>
    decreases |ls|
  {
    if ls == [] then Some(w)
    else match Step(m, w, ls[0])
      case None => None
      case Some(next) => Run(m, next, ls[1..])
  }

  /** A boot: no process yet, the lock free, nothing at the control path, and
      the manager's cache in step with the disk. */
  predicate Boot(m: Manager, w: World) {
    && w.procs == map[]
    && w.h.lock == None
    && w.h.control == Absent
    && w.h.load == m.base
    && !w.h.tampered
  }
}
