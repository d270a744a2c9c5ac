/**
  Component archives: which member lists are accepted, and the loop that decides it.
 */
module Archive {
  import opened Basics

  /** A member name by its parts between slashes. */
  type Name = seq<string>

  datatype Kind = Directory | Regular | Special
  datatype Member = Member(name: string, kind: Kind, mode: nat, data: seq<Byte>)

  // Octal 0755 and 0644.
  const MODE_755: nat := 493
  const MODE_644: nat := 420

  // ------------------------------------------------------------------------------ names

  function Split(s: string): (parts: Name)
    ensures |parts| >= 1
  {
    if s == "" then [""]
    else
      var front := Split(s[..|s| - 1]);
      if s[|s| - 1] == '/' then front + [""]
      else front[..|front| - 1] + [front[|front| - 1] + [s[|s| - 1]]]
  }

  function Join(parts: Name): string
    requires |parts| >= 1
  {
    if |parts| == 1 then parts[0] else Join(parts[..|parts| - 1]) + "/" + parts[|parts| - 1]
  }

  lemma JoinLast(parts: Name, last: string, c: char)
    ensures Join(parts + [last + [c]]) == Join(parts + [last]) + [c]
  {
    if parts != [] {
      assert (parts + [last + [c]])[..|parts|] == parts && (parts + [last])[..|parts|] == parts;
    }
  }

  lemma {:induction false} JoinSplit(s: string)
    ensures Join(Split(s)) == s
    decreases |s|
  {
    if s != "" {
      var t, c := s[..|s| - 1], s[|s| - 1];
      JoinSplit(t);
      var front := Split(t);
      assert s == t + [c];
      if c == '/' {
        assert (front + [""])[..|front|] == front;
      } else {
        var n := |front| - 1;
        assert front == front[..n] + [front[n]];
        JoinLast(front[..n], front[n], c);
      }
    }
  }

  predicate SlashFree(parts: Name) {
    forall i :: 0 <= i < |parts| ==> '/' !in parts[i]
  }

  lemma {:induction false} SplitAppend(s: string, part: string)
    requires '/' !in part
    ensures var front := Split(s); Split(s + part) == front[..|front| - 1] + [front[|front| - 1] + part]
    decreases |part|
  {
    var front := Split(s);
    var n := |front| - 1;
    if part == "" {
      assert s + part == s && front[n] + part == front[n];
      assert front == front[..n] + [front[n]];
    } else {
      var p, c := part[..|part| - 1], part[|part| - 1];
      assert c in part;
      SplitAppend(s, p);
      assert s + part == (s + p) + [c];
      assert front[n] + part == (front[n] + p) + [c];
    }
  }

  /** A name made of parts without slashes splits back into them. */
  lemma {:induction false} SplitJoin(parts: Name)
    requires |parts| >= 1 && SlashFree(parts)
    ensures Split(Join(parts)) == parts
    decreases |parts|
  {
    var n := |parts| - 1;
    if n == 0 {
      SplitAppend("", parts[0]);
      assert "" + parts[0] == parts[0];
    } else {
      var s := Join(parts[..n]);
      SplitJoin(parts[..n]);
      SplitNext(s, parts[n]);
      assert parts == parts[..n] + [parts[n]];
    }
  }

  lemma SplitNext(s: string, part: string)
    requires '/' !in part
    ensures Split(s + "/" + part) == Split(s) + [part]
  {
    var t := s + "/";
    assert t[..|s|] == s && Split(t) == Split(s) + [""];
    SplitAppend(t, part);
    assert "" + part == part;
  }

  /** Names differ exactly when their parts do, so parts can stand for names. */
  lemma SplitInjective(a: string, b: string)
    ensures Split(a) == Split(b) <==> a == b
  {
    JoinSplit(a);
    JoinSplit(b);
  }

  // -------------------------------------------------------------------- accepted archives

  /** A directory's name may carry one trailing slash. */
  function Bare(m: Member): string {
    if m.kind == Directory && m.name != "" && m.name[|m.name| - 1] == '/' then m.name[..|m.name| - 1] else m.name
  }

  function Parts(m: Member): (parts: Name)
    ensures |parts| >= 1
  {
    Split(Bare(m))
  }

  predicate UnsafePart(part: string) { part == "" || part == "." || part == ".." }

  predicate Unsafe(m: Member, root: string) {
    || Bare(m) == "" || Bare(m)[0] == '/'
    || (exists i :: 0 <= i < |Parts(m)| && UnsafePart(Parts(m)[i]))
    || Parts(m)[0] != root
  }

  /** A directory with mode 0755, or a regular file with 0644 or 0755. */
  predicate Normalized(m: Member) {
    match m.kind
    case Directory => m.mode == MODE_755
    case Regular => m.mode == MODE_644 || m.mode == MODE_755
    case Special => false
  }

  datatype Node = Dir(mode: nat) | File(mode: nat, data: seq<Byte>)

  function NodeOf(m: Member): Node {
    if m.kind == Directory then Dir(m.mode) else File(m.mode, m.data)
  }

  /** What an archive declares: its directories, and its files with their contents. */
  datatype Plan = Plan(dirs: set<Name>, files: map<Name, Node>)

  /** No two of the first `k` members share a name. */
  predicate Distinct(members: seq<Member>, k: nat)
    requires k <= |members|
  {
    forall i, j :: 0 <= i < j < k ==> Parts(members[i]) != Parts(members[j])
  }

  function DirsOf(members: seq<Member>): set<Name> {
    set m | m in members && m.kind == Directory :: Parts(m)
  }

  /** Every proper prefix of a name is a declared directory. */
  predicate Closed(name: Name, dirs: set<Name>) {
    forall n :: 1 <= n < |name| ==> name[..n] in dirs
  }

  /** The archives the extractor accepts. */
  predicate Accepted(members: seq<Member>, root: string) {
    && members != []
    && (forall m :: m in members ==> !Unsafe(m, root) && Normalized(m))
    && Distinct(members, |members|)
    && [root] in DirsOf(members)
    && (forall m :: m in members ==> Closed(Parts(m), DirsOf(members)))
  }

  /** A plan holds just what the members declare. */
  ghost predicate Declares(members: seq<Member>, plan: Plan) {
    && plan.dirs == DirsOf(members)
    && (forall m :: m in members && m.kind != Directory ==>
          Parts(m) in plan.files && plan.files[Parts(m)] == NodeOf(m))
    && (forall n :: n in plan.files ==> exists m :: m in members && m.kind != Directory && Parts(m) == n)
  }

  /** What any accepted plan looks like: names under the root, unique, closed under parents. */
  ghost predicate Sound(plan: Plan, root: string) {
    && [root] in plan.dirs
    && (forall n :: n in plan.dirs || n in plan.files ==> |n| >= 1 && n[0] == root && Closed(n, plan.dirs))
    && (forall n :: n in plan.files ==> n !in plan.dirs && plan.files[n].File?)
  }

  lemma AcceptedIsSound(members: seq<Member>, root: string, plan: Plan)
    requires Accepted(members, root) && Declares(members, plan)
    ensures Sound(plan, root)
  {
    forall n | n in plan.dirs || n in plan.files
      ensures |n| >= 1 && n[0] == root && Closed(n, plan.dirs)
    {
      var m :| m in members && Parts(m) == n;
      assert !Unsafe(m, root);
    }
    forall n | n in plan.files
      ensures n !in plan.dirs && plan.files[n].File?
    {
      var m :| m in members && m.kind != Directory && Parts(m) == n;
      if n in plan.dirs {
        var d :| d in members && d.kind == Directory && Parts(d) == n;
        TwoMembers(members, m, d);
      }
    }
  }

  lemma TwoMembers(members: seq<Member>, a: Member, b: Member)
    requires Distinct(members, |members|) && a in members && b in members && Parts(a) == Parts(b)
    ensures a == b
  {
    var i :| 0 <= i < |members| && members[i] == a;
    var j :| 0 <= j < |members| && members[j] == b;
    assert !(i < j) && !(j < i);
  }

  // ------------------------------------------------------------------ where a name leads

  /** A directory by the names from the root of the filesystem down. */
  type Place = seq<string>

  /** Following parts: an empty part or `.` stays, `..` goes up, any other goes down. */
  function Follow(at: Place, parts: Name): Place
    decreases |parts|
  {
    if parts == [] then at
    else
      Follow(if parts[0] == "" || parts[0] == "." then at
             else if parts[0] == ".." then (if at == [] then [] else at[..|at| - 1])
             else at + [parts[0]],
             parts[1..])
  }

  /** Where a name leads from `base`; a leading slash starts at the root of the filesystem. */
  function Leads(base: Place, name: string): Place {
    Follow(if name != "" && name[0] == '/' then [] else base, Split(name))
  }

  /** Each part leads one name down exactly if none of them is special. */
  lemma {:induction false} FollowDownIff(at: Place, parts: Name)
    ensures |Follow(at, parts)| <= |at| + |parts|
    ensures (forall i :: 0 <= i < |parts| ==> parts[i] != "" && parts[i] != "." && parts[i] != "..") <==>
            |Follow(at, parts)| == |at| + |parts|
    ensures |Follow(at, parts)| == |at| + |parts| ==> Follow(at, parts) == at + parts
    decreases |parts|
  {
    if parts != [] {
      var next := if parts[0] == "" || parts[0] == "." then at
                  else if parts[0] == ".." then (if at == [] then [] else at[..|at| - 1])
                  else at + [parts[0]];
      FollowDownIff(next, parts[1..]);
      assert forall i :: 1 <= i < |parts| ==> parts[i] == parts[1..][i - 1];
      if |Follow(at, parts)| == |at| + |parts| { assert next + parts[1..] == at + parts; }
    } else {
      assert at + parts == at;
    }
  }

  /** A name with a leading slash has an empty first part. */
  lemma {:induction false} LeadingSlash(s: string)
    requires s != ""
    ensures s[0] == '/' <==> Split(s)[0] == ""
    decreases |s|
  {
    var t := s[..|s| - 1];
    if t != "" {
      LeadingSlash(t);
      if |Split(t)| == 1 && Split(t)[0] == "" {
        JoinSplit(t);
      }
    }
  }

  /**
    A member's name is safe exactly if, from whatever directory, it leads as many names down
    as it has parts, the first of them the root.
   */
  lemma SafeNameIff(m: Member, root: string, base: Place)
    ensures !Unsafe(m, root) <==> Leads(base, Bare(m)) == base + Parts(m) && Parts(m)[0] == root
  {
    var s := Bare(m);
    FollowDownIff(base, Split(s));
    FollowDownIff([], Split(s));
    if s == "" {
      assert Split(s) == [""] && Split(s)[0] == "";
    } else {
      LeadingSlash(s);
    }
  }

  lemma {:induction false} FollowNothingMore(at: Place, parts: Name)
    ensures Follow(at, parts + [""]) == Follow(at, parts)
    decreases |parts|
  {
    if parts == [] {
      assert [""][1..] == [];
    } else {
      var next := if parts[0] == "" || parts[0] == "." then at
                  else if parts[0] == ".." then (if at == [] then [] else at[..|at| - 1])
                  else at + [parts[0]];
      assert (parts + [""])[1..] == parts[1..] + [""];
      FollowNothingMore(next, parts[1..]);
    }
  }

  /** The slash after a directory's name leads nowhere else. */
  lemma BareLeadsAlike(m: Member, base: Place)
    ensures m.name != "/" ==> Leads(base, m.name) == Leads(base, Bare(m))
  {
    if Bare(m) != m.name && m.name != "/" {
      assert Split(m.name) == Split(Bare(m)) + [""];
      assert Bare(m)[0] == m.name[0];
      FollowNothingMore(if m.name[0] == '/' then [] else base, Split(Bare(m)));
    }
  }

  lemma BareText(m: Member)
    ensures m.name == Join(Parts(m)) || (m.kind == Directory && m.name == Join(Parts(m)) + "/")
  {
    JoinSplit(Bare(m));
  }

  lemma SafeStaysBelow(m: Member, root: string, base: Place)
    requires !Unsafe(m, root)
    ensures Leads(base, m.name) == base + Parts(m) && base + [root] <= base + Parts(m)
  {
    SafeNameIff(m, root, base);
    BareLeadsAlike(m, base);
    assert Parts(m) == [root] + Parts(m)[1..];
    assert base + ([root] + Parts(m)[1..]) == (base + [root]) + Parts(m)[1..];
  }

  /**
    Every member of an accepted archive leads below the root, to just the place its parts
    name, and its name is its parts, with no more than a directory's slash after them.
   */
  lemma AcceptedStaysBelow(members: seq<Member>, root: string, base: Place, m: Member)
    requires Accepted(members, root) && m in members
    ensures Leads(base, m.name) == base + Parts(m) && base + [root] <= base + Parts(m)
    ensures m.name == Join(Parts(m)) || (m.kind == Directory && m.name == Join(Parts(m)) + "/")
  {
    SafeStaysBelow(m, root, base);
    BareText(m);
  }
}
