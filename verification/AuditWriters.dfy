/**
  Several writers of one audit log: the daemon and one-shot helpers take no lock, so
  their stats, renames, opens and writes interleave.
 */
module AuditWriters {
  import opened Basics
  import opened AuditLog

  type Ino = nat

  /** The files by inode, and which of them the two names lead to. */
  datatype Disk = Disk(data: map<Ino, Bytes>, current: Option<Ino>, rotated: Option<Ino>, next: Ino)

  /** Where a writer is in a call: it found a full file, is past the rotation, or has the file open. */
  datatype Pc = Idle | Full(ino: Ino) | Ready | Opened(ino: Ino)

  datatype Action =
    | Stat(ok: bool)
    | Rename(ok: bool)
    | Open(ok: bool)
    | Append(text: Bytes)
    | Close

  datatype Label = Label(w: nat, a: Action)

  datatype World = World(disk: Disk, pcs: map<nat, Pc>)

  function PcOf(s: World, w: nat): Pc { if w in s.pcs then s.pcs[w] else Idle }

  function DataOf(d: Disk, ino: Ino): Bytes { if ino in d.data then d.data[ino] else [] }

  /** The outcome of one system call, if the writer can make it. */
  function Act(max: nat, d: Disk, pc: Pc, a: Action): Option<(Disk, Pc)> {
    match a
    case Stat(ok) =>
      if !pc.Idle? then None
      else if ok && d.current.Some? && |DataOf(d, d.current.value)| >= max then Some((d, Full(d.current.value)))
      else Some((d, Ready))
    case Rename(ok) =>
      if !pc.Full? then None
      else if ok && d.current.Some? then Some((d.(rotated := d.current, current := None), Ready))
      else Some((d, Ready))
    case Open(ok) =>
      if !pc.Ready? then None
      else if !ok then Some((d, Idle))
      else if d.current.Some? then Some((d, Opened(d.current.value)))
      else Some((Disk(d.data[d.next := []], Some(d.next), d.rotated, d.next + 1), Opened(d.next)))
    case Append(text) =>
      if !pc.Opened? then None
      else Some((d.(data := d.data[pc.ino := DataOf(d, pc.ino) + text]), pc))
    case Close =>
      if !pc.Opened? then None else Some((d, Idle))
  }

  function Step(max: nat, s: World, l: Label): Option<World> {
    match Act(max, s.disk, PcOf(s, l.w), l.a)
    case None => None
    case Some((d, pc)) => Some(World(d, s.pcs[l.w := pc]))
  }

  function Run(max: nat, s: World, ls: seq<Label>): Option<World>
    decreases |ls|
  {
    if ls == [] then Some(s)
    else match Run(max, s, ls[..|ls| - 1])
      case None => None
      case Some(mid) => Step(max, mid, ls[|ls| - 1])
  }

  /** Inodes in use are older than the next one, and no writer is under way. */
  ghost predicate Start(s: World) {
    && s.pcs == map[]
    && (s.disk.current.Some? ==> s.disk.current.value < s.disk.next)
    && (s.disk.rotated.Some? ==> s.disk.rotated.value < s.disk.next)
    && (s.disk.current.Some? && s.disk.rotated.Some? ==> s.disk.current != s.disk.rotated)
  }

  // ----------------------------------------------------- every file is what was written to it

  /** What one system call writes to a file. */
  function Wrote(s: World, l: Label, ino: Ino): Bytes {
    if l.a.Append? && PcOf(s, l.w) == Opened(ino) then l.a.text else []
  }

  /** What the labels write to a file, in order; `s` is where they start. */
  function WrittenTo(max: nat, s: World, ls: seq<Label>, ino: Ino): Bytes
    decreases |ls|
  {
    if ls == [] then []
    else
      var front, l := ls[..|ls| - 1], ls[|ls| - 1];
      var mid := Run(max, s, front);
      WrittenTo(max, s, front, ino) + if mid.Some? then Wrote(mid.value, l, ino) else []
  }

  /** Inodes beyond the next are unused. */
  ghost predicate Numbered(s: World) {
    && (s.disk.current.Some? ==> s.disk.current.value < s.disk.next)
    && (s.disk.rotated.Some? ==> s.disk.rotated.value < s.disk.next)
    && (forall w :: w in s.pcs && (s.pcs[w].Full? || s.pcs[w].Opened?) ==> s.pcs[w].ino < s.disk.next)
  }

  lemma StepNumbered(max: nat, s: World, l: Label)
    requires Numbered(s) && Step(max, s, l).Some?
    ensures Numbered(Step(max, s, l).value) && s.disk.next <= Step(max, s, l).value.disk.next
  {
  }

  lemma {:induction false} RunNumbered(max: nat, s: World, ls: seq<Label>)
    requires Numbered(s) && Run(max, s, ls).Some?
    ensures Numbered(Run(max, s, ls).value) && s.disk.next <= Run(max, s, ls).value.disk.next
    decreases |ls|
  {
    if ls != [] {
      RunNumbered(max, s, ls[..|ls| - 1]);
      StepNumbered(max, Run(max, s, ls[..|ls| - 1]).value, ls[|ls| - 1]);
    }
  }

  lemma StepData(max: nat, s: World, l: Label, ino: Ino)
    requires Numbered(s) && Step(max, s, l).Some?
    ensures var now := Step(max, s, l).value;
            && (ino < s.disk.next ==> DataOf(now.disk, ino) == DataOf(s.disk, ino) + Wrote(s, l, ino))
            && (s.disk.next <= ino < now.disk.next ==> DataOf(now.disk, ino) == [] == Wrote(s, l, ino))
  {
    StepNumbered(max, s, l);
  }

  /** In every interleaving a file holds what it held and the writes made to it, in their
      order, none lost, repeated or moved to another file; a rename changes no contents. */
  lemma {:induction false} FilesHoldTheirWrites(max: nat, s: World, ls: seq<Label>, ino: Ino)
    requires Numbered(s) && Run(max, s, ls).Some?
    ensures var now := Run(max, s, ls).value;
            ino < s.disk.next ==> DataOf(now.disk, ino) == DataOf(s.disk, ino) + WrittenTo(max, s, ls, ino)
    ensures var now := Run(max, s, ls).value;
            s.disk.next <= ino < now.disk.next ==> DataOf(now.disk, ino) == WrittenTo(max, s, ls, ino)
    decreases |ls|
  {
    if ls != [] {
      var n := |ls| - 1;
      FilesHoldTheirWrites(max, s, ls[..n], ino);
      RunNumbered(max, s, ls[..n]);
      var mid := Run(max, s, ls[..n]).value;
      StepData(max, mid, ls[n], ino);
      assert Run(max, s, ls) == Step(max, mid, ls[n]);
      assert WrittenTo(max, s, ls, ino) == WrittenTo(max, s, ls[..n], ino) + Wrote(mid, ls[n], ino);
      if ino >= mid.disk.next { FreshHasNoWrites(max, s, ls[..n], ino); }
    }
  }

  lemma {:induction false} FreshHasNoWrites(max: nat, s: World, ls: seq<Label>, ino: Ino)
    requires Numbered(s) && Run(max, s, ls).Some? && ino >= Run(max, s, ls).value.disk.next
    ensures WrittenTo(max, s, ls, ino) == []
    decreases |ls|
  {
    if ls != [] {
      var n := |ls| - 1;
      var mid := Run(max, s, ls[..n]).value;
      RunNumbered(max, s, ls[..n]);
      StepNumbered(max, mid, ls[n]);
      FreshHasNoWrites(max, s, ls[..n], ino);
    }
  }

  // --------------------------------------------------------------- what a rename takes away

  /** A rename that moves a file other than the full one its writer found. */
  predicate Stale(s: World, l: Label) {
    && l.a.Rename? && l.a.ok && PcOf(s, l.w).Full?
    && s.disk.current.Some? && s.disk.current != Some(PcOf(s, l.w).ino)
  }

  predicate StaleIn(max: nat, s: World, ls: seq<Label>)
    decreases |ls|
  {
    ls != [] &&
    (StaleIn(max, s, ls[..|ls| - 1]) ||
     (Run(max, s, ls[..|ls| - 1]).Some? && Stale(Run(max, s, ls[..|ls| - 1]).value, ls[|ls| - 1])))
  }

  /** A writer that found a full file is right about that file for good: files only grow. */
  ghost predicate FullsAreFull(max: nat, s: World) {
    forall w :: w in s.pcs && s.pcs[w].Full? ==> |DataOf(s.disk, s.pcs[w].ino)| >= max
  }

  /** The rotated file is the one found at the start, or a full one. */
  predicate RotatedIsFull(max: nat, s: World, first: Option<Ino>) {
    s.disk.rotated == first || (s.disk.rotated.Some? && |DataOf(s.disk, s.disk.rotated.value)| >= max)
  }

  lemma FullStep(max: nat, s: World, l: Label, first: Option<Ino>)
    requires Numbered(s) && FullsAreFull(max, s) && RotatedIsFull(max, s, first)
    requires Step(max, s, l).Some? && !Stale(s, l)
    ensures FullsAreFull(max, Step(max, s, l).value) && RotatedIsFull(max, Step(max, s, l).value, first)
  {
  }

  /** Without stale renames, once the rotated file found at the start has been replaced, the
      one that replaced it is full: at least the limit is kept whenever anything is lost. */
  lemma {:induction false} RotatedStaysFull(max: nat, s: World, ls: seq<Label>)
    requires Start(s) && Run(max, s, ls).Some? && !StaleIn(max, s, ls)
    ensures var now := Run(max, s, ls).value;
            RotatedIsFull(max, now, s.disk.rotated) && FullsAreFull(max, now) && Numbered(now)
    decreases |ls|
  {
    if ls != [] {
      var n := |ls| - 1;
      RotatedStaysFull(max, s, ls[..n]);
      var mid := Run(max, s, ls[..n]).value;
      FullStep(max, mid, ls[n], s.disk.rotated);
      StepNumbered(max, mid, ls[n]);
    }
  }

  /** The label is a rename that succeeds. */
  predicate Renames(s: World, l: Label) {
    l.a.Rename? && l.a.ok && PcOf(s, l.w).Full? && s.disk.current.Some?
  }

  predicate RenamesIn(max: nat, s: World, ls: seq<Label>)
    decreases |ls|
  {
    ls != [] &&
    (RenamesIn(max, s, ls[..|ls| - 1]) ||
     (Run(max, s, ls[..|ls| - 1]).Some? && Renames(Run(max, s, ls[..|ls| - 1]).value, ls[|ls| - 1])))
  }

  /** From the moment a writer finds the current file full, the file stays current exactly
      until somebody renames: its own rename is stale, or finds nothing, if and only if
      another rename fell between its stat and its rename. */
  lemma {:induction false} CurrentUntilRenamed(max: nat, s: World, ls: seq<Label>, ino: Ino)
    requires Numbered(s) && s.disk.current == Some(ino) && Run(max, s, ls).Some?
    ensures Run(max, s, ls).value.disk.current == Some(ino) <==> !RenamesIn(max, s, ls)
    decreases |ls|
  {
    if ls != [] {
      var n := |ls| - 1;
      CurrentUntilRenamed(max, s, ls[..n], ino);
      RunNumbered(max, s, ls[..n]);
    }
  }

  // ------------------------------------------------------------------- the losing interleaving

  /** Two writers find the same full file. The second rename puts a one-line file over it. */
  function Collision(text: Bytes): seq<Label> {
    [Label(0, Stat(true)), Label(1, Stat(true)), Label(0, Rename(true)), Label(0, Open(true)),
     Label(0, Append(text)), Label(1, Rename(true))]
  }

  /** A log with only a current file. */
  function OneFile(data: Bytes): World { World(Disk(map[0 := data], Some(0), None, 1), map[]) }

  lemma RunSnoc(max: nat, s: World, ls: seq<Label>, l: Label)
    requires Run(max, s, ls).Some?
    ensures Run(max, s, ls + [l]) == Step(max, Run(max, s, ls).value, l)
  {
    assert (ls + [l])[..|ls|] == ls;
  }

  /** Whatever the limit and however full the log, the whole of it is lost and one line is kept. */
  lemma CollisionLosesTheLog(max: nat, data: Bytes, text: Bytes)
    requires |data| >= max
    ensures var now := Run(max, OneFile(data), Collision(text));
            && now.Some? && now.value.disk.rotated == Some(1) && now.value.disk.current.None?
            && DataOf(now.value.disk, 1) == text
  {
    var s := OneFile(data);
    var ls := Collision(text);
    var p := map[0 := Full(0)];
    var s1 := World(s.disk, p);
    assert s.pcs[0 := Full(0)] == p;
    assert [] + [ls[0]] == [ls[0]] && [ls[0]] + [ls[1]] == ls[..2] && ls[..2] + [ls[2]] == ls[..3];
    assert ls[..3] + [ls[3]] == ls[..4] && ls[..4] + [ls[4]] == ls[..5] && ls[..5] + [ls[5]] == ls;
    RunSnoc(max, s, [], ls[0]);
    RunSnoc(max, s, [ls[0]], ls[1]);
    RunSnoc(max, s, ls[..2], ls[2]);
    RunSnoc(max, s, ls[..3], ls[3]);
    RunSnoc(max, s, ls[..4], ls[4]);
    RunSnoc(max, s, ls[..5], ls[5]);
  }

  // ------------------------------------------------------------------------- a writer alone

  /** The two files as a single writer sees them. */
  function FilesOf(d: Disk): Files {
    Files(if d.current.Some? then Some(DataOf(d, d.current.value)) else None,
          if d.rotated.Some? then Some(DataOf(d, d.rotated.value)) else None)
  }

  /** The system calls of one call of `write_audit_entry` that secures its directory. */
  function Calls(config: Config, s: World, w: nat, call: Call): seq<Label> {
    [Label(w, Stat(call.statOk))]
    + (if call.statOk && s.disk.current.Some? && |DataOf(s.disk, s.disk.current.value)| >= MaxBytes(config)
       then [Label(w, Rename(call.renameOk))] else [])
    + if call.line.Some? && call.openOk
      then [Label(w, Open(true)), Label(w, Append(Appended(config, call))), Label(w, Close)]
      else [Label(w, Open(false))]
  }

  lemma RunChain(max: nat, s: World, xs: seq<Label>, ys: seq<Label>)
    requires Run(max, s, xs).Some?
    ensures Run(max, s, xs + ys) == Run(max, Run(max, s, xs).value, ys)
    decreases |ys|
  {
    if ys == [] {
      assert xs + ys == xs;
    } else {
      RunChain(max, s, xs, ys[..|ys| - 1]);
      assert (xs + ys)[..|xs + ys| - 1] == xs + ys[..|ys| - 1];
    }
  }

  /** Where nobody comes between, a call does to the two files what the single writer's does. */
  lemma AloneIsWritten(config: Config, s: World, w: nat, call: Call)
    requires Numbered(s) && PcOf(s, w).Idle? && config.enabled && call.dirOk
    requires s.disk.current.Some? && s.disk.rotated.Some? ==> s.disk.current != s.disk.rotated
    ensures var now := Run(MaxBytes(config), s, Calls(config, s, w, call));
            && now.Some? && PcOf(now.value, w).Idle?
            && FilesOf(now.value.disk) == Written(config, FilesOf(s.disk), call)
  {
    var max := MaxBytes(config);
    var full := call.statOk && s.disk.current.Some? && |DataOf(s.disk, s.disk.current.value)| >= max;
    var turn := if full then [Label(w, Rename(call.renameOk))] else [];
    var front := [Label(w, Stat(call.statOk))] + turn;
    var tail := if call.line.Some? && call.openOk
                then [Label(w, Open(true)), Label(w, Append(Appended(config, call))), Label(w, Close)]
                else [Label(w, Open(false))];
    assert Calls(config, s, w, call) == front + tail;
    TurnRuns(config, s, w, call, front);
    RunChain(max, s, front, tail);
    TailRuns(config, Run(max, s, front).value, w, call, tail);
  }

  lemma TurnRuns(config: Config, s: World, w: nat, call: Call, front: seq<Label>)
    requires Numbered(s) && PcOf(s, w).Idle? && config.enabled && call.dirOk
    requires var full := call.statOk && s.disk.current.Some? && |DataOf(s.disk, s.disk.current.value)| >= MaxBytes(config);
             front == [Label(w, Stat(call.statOk))] + if full then [Label(w, Rename(call.renameOk))] else []
    ensures var now := Run(MaxBytes(config), s, front);
            && now.Some? && PcOf(now.value, w).Ready? && Numbered(now.value)
            && now.value.disk.data == s.disk.data
            && now.value.disk == if Rotates(config, FilesOf(s.disk), call)
                                 then s.disk.(rotated := s.disk.current, current := None) else s.disk
  {
    var max := MaxBytes(config);
    var stat := [Label(w, Stat(call.statOk))];
    assert stat[..0] == [] && Run(max, s, []) == Some(s);
    assert Run(max, s, stat) == Step(max, s, stat[0]);
    if front != stat {
      RunSnoc(max, s, stat, Label(w, Rename(call.renameOk)));
    } else {
      assert front == stat;
    }
    RunNumbered(max, s, front);
  }

  lemma TailRuns(config: Config, s: World, w: nat, call: Call, tail: seq<Label>)
    requires Numbered(s) && PcOf(s, w).Ready? && config.enabled && call.dirOk
    requires s.disk.current.Some? && s.disk.rotated.Some? ==> s.disk.current != s.disk.rotated
    requires tail == if call.line.Some? && call.openOk
                     then [Label(w, Open(true)), Label(w, Append(Appended(config, call))), Label(w, Close)]
                     else [Label(w, Open(false))]
    ensures var now := Run(MaxBytes(config), s, tail);
            && now.Some? && PcOf(now.value, w).Idle?
            && FilesOf(now.value.disk) ==
               if call.line.None? || !call.openOk then FilesOf(s.disk)
               else FilesOf(s.disk).(current := Some(Contents(FilesOf(s.disk).current) + Appended(config, call)))
  {
    var max := MaxBytes(config);
    var one := [tail[0]];
    assert one[..0] == [] && Run(max, s, []) == Some(s);
    assert Run(max, s, one) == Step(max, s, tail[0]);
    if call.line.Some? && call.openOk {
      RunSnoc(max, s, one, tail[1]);
      RunSnoc(max, s, one + [tail[1]], tail[2]);
      assert one + [tail[1]] + [tail[2]] == tail;
    } else {
      assert one == tail;
    }
  }
}
