/**
  The validation loops of the extractor, against the archives it should accept.
 */
module ArchiveCheck {
  import opened Basics
  import opened Archive

  /** The dictionary holds just the first `k` members, each under its own name. */
  ghost predicate Indexed(members: seq<Member>, k: nat, byName: map<Name, Member>) {
    && k <= |members| && Distinct(members, k)
    && (forall i :: 0 <= i < k ==> Parts(members[i]) in byName && byName[Parts(members[i])] == members[i])
    && (forall n :: n in byName ==> byName[n] in members[..k] && Parts(byName[n]) == n)
  }

  /** The two sets divide the dictionary's names by kind. */
  ghost predicate Divided(byName: map<Name, Member>, dirs: set<Name>, files: set<Name>) {
    && (forall n :: n in dirs <==> n in byName && byName[n].kind == Directory)
    && (forall n :: n in files <==> n in byName && byName[n].kind == Regular)
  }

  /** The state of the first loop after `k` members. */
  ghost predicate Seen(members: seq<Member>, k: nat, root: string,
                       byName: map<Name, Member>, dirs: set<Name>, files: set<Name>) {
    && Indexed(members, k, byName) && Divided(byName, dirs, files)
    && (forall i :: 0 <= i < k ==> !Unsafe(members[i], root) && Normalized(members[i]))
  }

  lemma IndexedMore(members: seq<Member>, k: nat, byName: map<Name, Member>, name: Name)
    requires Indexed(members, k, byName) && k < |members| && name == Parts(members[k]) && name !in byName
    ensures Indexed(members, k + 1, byName[name := members[k]])
  {
    var more := byName[name := members[k]];
    assert members[..k + 1] == members[..k] + [members[k]];
    forall i | 0 <= i < k + 1
      ensures Parts(members[i]) in more && more[Parts(members[i])] == members[i]
    {
      if i < k { assert Parts(members[i]) in byName; }
    }
  }

  lemma DividedMore(byName: map<Name, Member>, dirs: set<Name>, files: set<Name>, name: Name, m: Member)
    requires Divided(byName, dirs, files) && name !in byName && m.kind != Special
    ensures Divided(byName[name := m], if m.kind == Directory then dirs + {name} else dirs,
                    if m.kind == Directory then files else files + {name})
  {
  }

  lemma SeenMore(members: seq<Member>, k: nat, root: string, byName: map<Name, Member>, dirs: set<Name>, files: set<Name>)
    requires Seen(members, k, root, byName, dirs, files) && k < |members|
    requires !Unsafe(members[k], root) && Normalized(members[k]) && Parts(members[k]) !in byName
    ensures var m := members[k];
            Seen(members, k + 1, root, byName[Parts(m) := m],
                 if m.kind == Directory then dirs + {Parts(m)} else dirs,
                 if m.kind == Directory then files else files + {Parts(m)})
  {
    IndexedMore(members, k, byName, Parts(members[k]));
    DividedMore(byName, dirs, files, Parts(members[k]), members[k]);
  }

  lemma DuplicateRefused(members: seq<Member>, k: nat, root: string,
                         byName: map<Name, Member>, dirs: set<Name>, files: set<Name>)
    requires Seen(members, k, root, byName, dirs, files) && k < |members| && Parts(members[k]) in byName
    ensures !Distinct(members, |members|)
  {
    var other := byName[Parts(members[k])];
    var i :| 0 <= i < k && members[..k][i] == other;
    assert Parts(members[i]) == Parts(members[k]);
  }

  /** The first loop: every member by name, or the first refusal. */
  method Collect(members: seq<Member>, root: string)
    returns (ok: bool, byName: map<Name, Member>, dirs: set<Name>, files: set<Name>)
    ensures ok ==> Seen(members, |members|, root, byName, dirs, files)
    ensures !ok ==> !Accepted(members, root)
  {
    byName, dirs, files := map[], {}, {};
    for k := 0 to |members|
      invariant Seen(members, k, root, byName, dirs, files)
    {
      var m := members[k];
      var name := Parts(m);
      assert m in members;
      if Unsafe(m, root) {
        return false, byName, dirs, files;
      }
      if name in byName {
        DuplicateRefused(members, k, root, byName, dirs, files);
        return false, byName, dirs, files;
      }
      if !Normalized(m) {
        return false, byName, dirs, files;
      }
      SeenMore(members, k, root, byName, dirs, files);
      if m.kind == Directory {
        dirs := dirs + {name};
      } else {
        files := files + {name};
      }
      byName := byName[name := m];
    }
    ok := true;
  }

  /** The inner loop over a name's proper prefixes. */
  method HasParents(name: Name, dirs: set<Name>) returns (ok: bool)
    ensures ok <==> Closed(name, dirs)
  {
    var end := 1;
    while end < |name|
      invariant forall n :: 1 <= n < end ==> n < |name| && name[..n] in dirs
    {
      if name[..end] !in dirs {
        return false;
      }
      end := end + 1;
    }
    ok := true;
  }

  /** The second loop: every name's parents are declared. */
  method AllHaveParents(names: set<Name>, dirs: set<Name>) returns (ok: bool)
    ensures ok <==> forall n :: n in names ==> Closed(n, dirs)
  {
    var todo := names;
    while todo != {}
      invariant todo <= names
      invariant forall n :: n in names && n !in todo ==> Closed(n, dirs)
      decreases |todo|
    {
      var name :| name in todo;
      var closed := HasParents(name, dirs);
      if !closed {
        return false;
      }
      todo := todo - {name};
    }
    ok := true;
  }

  lemma SeenAll(members: seq<Member>, root: string, byName: map<Name, Member>, dirs: set<Name>, files: set<Name>)
    requires Seen(members, |members|, root, byName, dirs, files)
    ensures Distinct(members, |members|) && dirs == DirsOf(members)
    ensures forall m :: m in members ==> !Unsafe(m, root) && Normalized(m) && Parts(m) in byName && byName[Parts(m)] == m
    ensures forall n :: n in byName ==> byName[n] in members && Parts(byName[n]) == n
    ensures dirs + files == byName.Keys
  {
    assert members[..|members|] == members;
    forall n | n in byName
      ensures n in dirs || n in files
    {
      assert Normalized(byName[n]);
    }
  }

  function PlanOf(byName: map<Name, Member>, dirs: set<Name>, files: set<Name>): Plan
    requires files <= byName.Keys
  {
    Plan(dirs, map n | n in files :: NodeOf(byName[n]))
  }

  lemma PlanDeclares(members: seq<Member>, root: string, byName: map<Name, Member>, dirs: set<Name>, files: set<Name>)
    requires Seen(members, |members|, root, byName, dirs, files)
    ensures files <= byName.Keys && Declares(members, PlanOf(byName, dirs, files))
  {
    SeenAll(members, root, byName, dirs, files);
    var plan := PlanOf(byName, dirs, files);
    forall n | n in plan.files
      ensures exists m :: m in members && m.kind != Directory && Parts(m) == n
    {
      var m := byName[n];
      assert m in members && m.kind != Directory && Parts(m) == n;
    }
  }

  /** All validation: accepts exactly the accepted archives, and reports what they declare. */
  method Validate(members: seq<Member>, root: string) returns (r: Option<Plan>)
    ensures r.Some? <==> Accepted(members, root)
    ensures r.Some? ==> Declares(members, r.value) && Sound(r.value, root)
  {
    if members == [] {
      return None;
    }
    var ok, byName, dirs, files := Collect(members, root);
    if !ok {
      return None;
    }
    SeenAll(members, root, byName, dirs, files);
    PlanDeclares(members, root, byName, dirs, files);
    if [root] !in dirs {
      return None;
    }
    var closed := AllHaveParents(dirs + files, dirs);
    if !closed {
      var n :| n in dirs + files && !Closed(n, dirs);
      assert byName[n] in members && Parts(byName[n]) == n;
      return None;
    }
    forall m | m in members
      ensures Closed(Parts(m), dirs)
    {
      assert Parts(m) in dirs + files;
    }
    AcceptedIsSound(members, root, PlanOf(byName, dirs, files));
    r := Some(PlanOf(byName, dirs, files));
  }
}
