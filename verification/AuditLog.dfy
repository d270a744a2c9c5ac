/**
  The audit log and its single rotated predecessor, as byte files that
  `write_audit_entry` appends to and `rotate_log` renames.
 */
module AuditLog {
  import opened Basics

  type Bytes = seq<Byte>

  const NEWLINE: Byte := 10

  datatype Config = Config(enabled: bool, rotateSizeMb: nat)

  function MaxBytes(config: Config): nat { config.rotateSizeMb * 1024 * 1024 }

  /**
    One call and what the system does with it: whether the directory can be secured,
    the metadata read, the file renamed and opened, and how many bytes of the line
    reach the file. A line that cannot be serialized is `None`.
   */
  datatype Call = Call(line: Option<Bytes>, dirOk: bool, statOk: bool, renameOk: bool, openOk: bool, reached: nat)

  datatype Files = Files(current: Option<Bytes>, rotated: Option<Bytes>)

  function Contents(file: Option<Bytes>): Bytes {
    if file.Some? then file.value else []
  }

  /** The bytes a call adds to the log: its line and a newline, or as much of them as gets through. */
  function Appended(config: Config, call: Call): Bytes {
    if !config.enabled || !call.dirOk || call.line.None? || !call.openOk then []
    else
      var text := call.line.value + [NEWLINE];
      if call.reached < |text| then text[..call.reached] else text
  }

  predicate Rotates(config: Config, files: Files, call: Call) {
    && config.enabled && call.dirOk && call.statOk && call.renameOk
    && files.current.Some? && |files.current.value| >= MaxBytes(config)
  }

  function Written(config: Config, files: Files, call: Call): Files {
    var turned := if Rotates(config, files, call) then Files(None, files.current) else files;
    if !config.enabled || !call.dirOk || call.line.None? || !call.openOk then turned
    else turned.(current := Some(Contents(turned.current) + Appended(config, call)))
  }

  /** The log on disk. */
  class Log {
    var current: Option<Bytes>
    var rotated: Option<Bytes>

    constructor ()
      ensures current == None && rotated == None
    {
      current, rotated := None, None;
    }

    function State(): Files
      reads this
    {
      Files(current, rotated)
    }

    /** `rotate_log`: rename over any earlier rotated file. */
    method Rotate(renameOk: bool)
      requires current.Some?
      modifies this
      ensures State() == if renameOk then Files(None, old(current)) else old(State())
    {
      if renameOk {
        rotated := current;
        current := None;
      }
    }

    /** `write_audit_entry`. */
    method Write(config: Config, call: Call)
      modifies this
      ensures State() == Written(config, old(State()), call)
    {
      if !config.enabled || !call.dirOk {
        return;
      }
      if call.statOk && current.Some? && |current.value| >= MaxBytes(config) {
        Rotate(call.renameOk);
      }
      if call.line.Some? && call.openOk {
        if current.None? {
          current := Some([]);
        }
        var text := call.line.value + [NEWLINE];
        current := Some(current.value + if call.reached < |text| then text[..call.reached] else text);
      }
    }
  }

  // ------------------------------------------------------- what one call leaves in the log

  /** A call on which nothing fails. */
  predicate Faultless(call: Call) {
    call.dirOk && call.statOk && call.renameOk && call.openOk && call.line.Some? && call.reached > |call.line.value|
  }

  /** It adds its line and a newline, to a new file once the old one has as many mebibytes as configured. */
  lemma FaultlessWrite(config: Config, files: Files, call: Call)
    requires config.enabled && Faultless(call)
    ensures var line := call.line.value + [10];
            Written(config, files, call) ==
            if files.current.Some? && |files.current.value| >= 1048576 * config.rotateSizeMb
            then Files(Some(line), files.current)
            else Files(Some(Contents(files.current) + line), files.rotated)
  {
    assert [] + (call.line.value + [10]) == call.line.value + [10];
  }

  /** Without the log or its directory nothing is touched; without a line or an open file nothing is added. */
  lemma FaultyWrite(config: Config, files: Files, call: Call)
    ensures !config.enabled || !call.dirOk ==> Written(config, files, call) == files
    ensures call.line.None? || !call.openOk ==>
              var now := Written(config, files, call); now == files || now == Files(None, files.current)
    ensures !call.statOk || !call.renameOk ==> Written(config, files, call).rotated == files.rotated
    ensures (!call.statOk || !call.renameOk) && config.enabled && call.dirOk && call.line.Some? && call.openOk
            && call.reached > |call.line.value| ==>
              Contents(Written(config, files, call).current) == Contents(files.current) + (call.line.value + [10])
  {
  }

  /** What is after the last newline but one, without the newline at the end. */
  function LastLine(text: Bytes): Bytes {
    if text == [] then [] else AfterNewline(text[..|text| - 1])
  }

  function AfterNewline(text: Bytes): Bytes {
    if text == [] || text[|text| - 1] == 10 then [] else AfterNewline(text[..|text| - 1]) + [text[|text| - 1]]
  }

  lemma {:induction false} AfterNewlineAppends(text: Bytes, line: Bytes)
    requires 10 !in line
    ensures AfterNewline(text + line) == AfterNewline(text) + line
    decreases |line|
  {
    if line == [] {
      assert text + line == text && AfterNewline(text) + line == AfterNewline(text);
    } else {
      var last := line[|line| - 1];
      AfterNewlineAppends(text, line[..|line| - 1]);
      assert (text + line)[..|text + line| - 1] == text + line[..|line| - 1];
      assert line == line[..|line| - 1] + [last];
    }
  }

  /**
    However it came to be written, a line that got through whole is the last line of the log
    exactly if the file it went to was empty or ended in a newline.
   */
  lemma OwnLineIff(config: Config, files: Files, call: Call)
    requires config.enabled && call.dirOk && call.openOk && call.line.Some? && call.reached > |call.line.value|
    requires 10 !in call.line.value
    ensures var found := if Rotates(config, files, call) then [] else Contents(files.current);
            var now := Contents(Written(config, files, call).current);
            && found + call.line.value + [10] == now
            && (LastLine(now) == call.line.value <==> found == [] || found[|found| - 1] == 10)
  {
    var found := if Rotates(config, files, call) then [] else Contents(files.current);
    var line, now := call.line.value, Contents(Written(config, files, call).current);
    assert now == found + line + [10] && now[..|now| - 1] == found + line;
    AfterNewlineAppends(found, line);
    if AfterNewline(found) != [] { assert |AfterNewline(found) + line| > |line|; }
  }

  // ------------------------------------------- whole runs of one writer, from any files

  function Run(config: Config, files: Files, calls: seq<Call>): Files
    decreases |calls|
  {
    if calls == [] then files
    else Written(config, Run(config, files, calls[..|calls| - 1]), calls[|calls| - 1])
  }

  /** Everything there ever was, oldest first: the rotated and the current file found, and what each call appended. */
  function Chunks(config: Config, files: Files, calls: seq<Call>): (chunks: seq<Bytes>)
    ensures |chunks| == |calls| + 2
    decreases |calls|
  {
    if calls == [] then [Contents(files.rotated), Contents(files.current)]
    else Chunks(config, files, calls[..|calls| - 1]) + [Appended(config, calls[|calls| - 1])]
  }

  /** Chunks `start` up to `end`, joined. */
  function Text(chunks: seq<Bytes>, start: nat, end: nat): Bytes
    requires start <= end <= |chunks|
    decreases end
  {
    if start == end then [] else Text(chunks, start, end - 1) + chunks[end - 1]
  }

  /** The rotated file holds exactly chunks `lo..mid`, and the current file exactly those since. */
  predicate Holds(chunks: seq<Bytes>, files: Files, lo: nat, mid: nat) {
    && lo <= mid <= |chunks|
    && Contents(files.rotated) == Text(chunks, lo, mid)
    && Contents(files.current) == Text(chunks, mid, |chunks|)
  }

  lemma {:induction false} TextPrefix(chunks: seq<Bytes>, more: seq<Bytes>, start: nat, end: nat)
    requires start <= end <= |chunks|
    ensures Text(chunks + more, start, end) == Text(chunks, start, end)
    decreases end
  {
    if start < end {
      TextPrefix(chunks, more, start, end - 1);
      assert (chunks + more)[end - 1] == chunks[end - 1];
    }
  }

  lemma {:induction false} TextJoins(chunks: seq<Bytes>, a: nat, b: nat, c: nat)
    requires a <= b <= c <= |chunks|
    ensures Text(chunks, a, b) + Text(chunks, b, c) == Text(chunks, a, c)
    decreases c
  {
    if b < c { TextJoins(chunks, a, b, c - 1); }
  }

  /** Found as they are, the two files are the first two chunks. */
  lemma StartHolds(config: Config, files: Files)
    ensures Holds(Chunks(config, files, []), files, 0, 1)
  {
    var chunks := Chunks(config, files, []);
    assert Text(chunks, 0, 0) == [] && Text(chunks, 1, 1) == [];
    assert Text(chunks, 0, 1) == [] + chunks[0] && Text(chunks, 1, 2) == [] + chunks[1];
  }

  /** A rotation never splits, reorders or repeats what was written, and drops only the oldest. */
  lemma {:induction false} RunHolds(config: Config, files: Files, calls: seq<Call>) returns (lo: nat, mid: nat)
    ensures Holds(Chunks(config, files, calls), Run(config, files, calls), lo, mid)
    ensures lo > 0 ==> |Text(Chunks(config, files, calls), lo, mid)| >= MaxBytes(config)
    decreases |calls|
  {
    if calls == [] {
      StartHolds(config, files);
      lo, mid := 0, 1;
    } else {
      var n := |calls| - 1;
      var before, call := calls[..n], calls[n];
      var l, m := RunHolds(config, files, before);
      var chunks := Chunks(config, files, before);
      TextPrefix(chunks, [Appended(config, call)], l, m);
      TextPrefix(chunks, [Appended(config, call)], m, |chunks|);
      if Rotates(config, Run(config, files, before), call) {
        lo, mid := m, |chunks|;
      } else {
        lo, mid := l, m;
      }
    }
  }

  /** Both files together are the end of everything there ever was, and at least the last `MaxBytes` of it. */
  lemma NewestAreKept(config: Config, files: Files, calls: seq<Call>) returns (lo: nat)
    ensures lo <= |calls| + 2
    ensures var now := Run(config, files, calls);
            var chunks := Chunks(config, files, calls);
            var kept := Contents(now.rotated) + Contents(now.current);
            && kept == Text(chunks, lo, |chunks|)
            && Text(chunks, 0, |chunks|) == Text(chunks, 0, lo) + kept
            && (lo > 0 ==> |kept| >= MaxBytes(config))
  {
    var mid;
    lo, mid := RunHolds(config, files, calls);
    var chunks := Chunks(config, files, calls);
    TextJoins(chunks, lo, mid, |chunks|);
    TextJoins(chunks, 0, lo, |chunks|);
  }

  /** No call appends more than `line` bytes, and no rename or stat fails. */
  predicate Smooth(config: Config, calls: seq<Call>, line: nat) {
    forall c :: c in calls ==> c.statOk && c.renameOk && |Appended(config, c)| <= line
  }

  /** The longest a file can get: just short of the limit, and one more line. */
  function Bound(config: Config, line: nat): nat {
    (if MaxBytes(config) == 0 then 0 else MaxBytes(config) - 1) + line
  }

  /** Each file stays within that bound as long as renames succeed, or within what was found. */
  lemma {:induction false} FilesAreBounded(config: Config, files: Files, calls: seq<Call>, line: nat)
    requires Smooth(config, calls, line)
    ensures var now := Run(config, files, calls);
            var cap := Max(Bound(config, line), |Contents(files.current)|);
            && |Contents(now.current)| <= cap
            && |Contents(now.rotated)| <= Max(cap, |Contents(files.rotated)|)
    decreases |calls|
  {
    if calls != [] {
      FilesAreBounded(config, files, calls[..|calls| - 1], line);
      assert calls[|calls| - 1] in calls;
    }
  }

  /** While renames fail nothing leaves the current file. */
  lemma {:induction false} FailingRenameKeepsAll(config: Config, files: Files, calls: seq<Call>)
    requires forall c :: c in calls ==> !c.renameOk
    ensures var now, chunks := Run(config, files, calls), Chunks(config, files, calls);
            now.rotated == files.rotated && Contents(now.current) == Text(chunks, 1, |chunks|)
    decreases |calls|
  {
    if calls == [] {
      StartHolds(config, files);
    } else {
      var n := |calls| - 1;
      assert calls[n] in calls;
      FailingRenameKeepsAll(config, files, calls[..n]);
      var chunks := Chunks(config, files, calls[..n]);
      TextPrefix(chunks, [Appended(config, calls[n])], 1, |chunks|);
    }
  }

  function Repeated(call: Call, n: nat): seq<Call> {
    if n == 0 then [] else Repeated(call, n - 1) + [call]
  }

  lemma FailingRenameGrows(config: Config, files: Files, call: Call)
    requires !call.renameOk && Appended(config, call) != []
    ensures |Contents(Written(config, files, call).current)| > |Contents(files.current)|
  {
  }

  function Size(config: Config, files: Files, calls: seq<Call>): nat {
    |Contents(Run(config, files, calls).current)|
  }

  lemma OneMoreGrows(config: Config, files: Files, calls: seq<Call>, call: Call)
    requires !call.renameOk && Appended(config, call) != []
    ensures Size(config, files, calls + [call]) > Size(config, files, calls)
  {
    assert (calls + [call])[..|calls|] == calls;
    FailingRenameGrows(config, Run(config, files, calls), call);
  }

  /** So the log grows past every bound, whatever the limit. */
  lemma {:induction false} FailingRenameUnbounded(config: Config, files: Files, call: Call, n: nat)
    requires !call.renameOk && Appended(config, call) != []
    ensures Size(config, files, Repeated(call, n)) >= n
    decreases n
  {
    if n > 0 {
      FailingRenameUnbounded(config, files, call, n - 1);
      OneMoreGrows(config, files, Repeated(call, n - 1), call);
    }
  }
}
