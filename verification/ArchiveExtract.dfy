/**
  Creating the declared tree: directories by depth, then files, with the rollback
  that a failure part way triggers.
 */
module ArchiveExtract {
  import opened Basics
  import opened Archive
  import C = ArchiveCheck

  /** What is on disk below the destination's parent. */
  type Tree = map<Name, Node>

  predicate HasParent(tree: Tree, name: Name) {
    |name| == 1 || (|name| > 1 && name[..|name| - 1] in tree && tree[name[..|name| - 1]].Dir?)
  }

  ghost predicate WellFormed(tree: Tree) {
    forall n :: n in tree ==> HasParent(tree, n)
  }

  /** A disk on which the `k`-th operation fails when `fault(k)` says so. */
  class Disk {
    const fault: nat -> bool
    /** How much of a copy gets through when it fails. */
    const reached: nat -> nat
    /** The modes a new directory and a new file get before `chmod`. */
    const dirMode: nat
    const fileMode: nat
    var tree: Tree
    var ops: nat

    constructor (tree: Tree, fault: nat -> bool, reached: nat -> nat, dirMode: nat, fileMode: nat)
      ensures this.tree == tree && this.ops == 0 && this.fault == fault
    {
      this.tree, this.ops, this.fault, this.reached := tree, 0, fault, reached;
      this.dirMode, this.fileMode := dirMode, fileMode;
    }

    method Mkdir(name: Name) returns (ok: bool)
      modifies this
      ensures ops == old(ops) + 1
      ensures ok <==> !fault(old(ops)) && name !in old(tree) && HasParent(old(tree), name)
      ensures tree == if ok then old(tree)[name := Dir(dirMode)] else old(tree)
    {
      ok := !fault(ops) && name !in tree && HasParent(tree, name);
      ops := ops + 1;
      if ok { tree := tree[name := Dir(dirMode)]; }
    }

    method Chmod(name: Name, mode: nat) returns (ok: bool)
      requires name in tree
      modifies this
      ensures ops == old(ops) + 1 && (ok <==> !fault(old(ops)))
      ensures tree == if ok then old(tree)[name := old(tree)[name].(mode := mode)] else old(tree)
    {
      ok := !fault(ops);
      ops := ops + 1;
      if ok { tree := tree[name := tree[name].(mode := mode)]; }
    }

    /** A point between two operations, at which an interrupt may arrive. */
    method Proceed() returns (ok: bool)
      modifies this`ops
      ensures ops == old(ops) + 1 && (ok <==> !fault(old(ops)))
    {
      ok := !fault(ops);
      ops := ops + 1;
    }

    /** Reading the member from the archive. */
    method ReadMember() returns (ok: bool)
      modifies this`ops
      ensures ops == old(ops) + 1 && (ok <==> !fault(old(ops)))
    {
      ok := !fault(ops);
      ops := ops + 1;
    }

    /** Opening a file that must not exist yet. */
    method Create(name: Name) returns (ok: bool)
      modifies this
      ensures ops == old(ops) + 1
      ensures ok <==> !fault(old(ops)) && name !in old(tree) && HasParent(old(tree), name)
      ensures tree == if ok then old(tree)[name := File(fileMode, [])] else old(tree)
    {
      ok := !fault(ops) && name !in tree && HasParent(tree, name);
      ops := ops + 1;
      if ok { tree := tree[name := File(fileMode, [])]; }
    }

    method Copy(name: Name, data: seq<Byte>) returns (ok: bool)
      requires name in tree && tree[name].File?
      modifies this
      ensures ops == old(ops) + 1 && (ok <==> !fault(old(ops)))
      ensures exists part :: tree == old(tree)[name := File(old(tree)[name].mode, part)] && (ok ==> part == data)
    {
      ok := !fault(ops);
      var part := if ok || reached(ops) >= |data| then data else data[..reached(ops)];
      ghost var was := tree;
      tree := tree[name := File(tree[name].mode, part)];
      ops := ops + 1;
      assert tree == was[name := File(was[name].mode, part)];
    }

    /** `shutil.rmtree` of a destination. */
    method RemoveTree(root: string)
      modifies this`tree
      ensures tree == map n | n in old(tree) && !(|n| >= 1 && n[0] == root) :: old(tree)[n]
    {
      tree := map n | n in tree && !(|n| >= 1 && n[0] == root) :: tree[n];
    }
  }

  // ------------------------------------------------------------------------- ordering

  ghost predicate Lists(order: seq<Name>, names: set<Name>) {
    && |order| == |names|
    && (forall n :: n in order <==> n in names)
    && (forall i, j :: 0 <= i < j < |order| ==> order[i] != order[j])
  }

  function NameText(n: Name): string { if n == [] then "" else Join(n) }

  /** The sort keys: the number of slashes and then the name, or the name alone. */
  predicate Comes(a: Name, b: Name, byDepth: bool) {
    if byDepth && |a| != |b| then |a| < |b| else TextLess(NameText(a), NameText(b))
  }

  lemma ComesOnce(a: Name, byDepth: bool)
    ensures !Comes(a, a, byDepth)
  {
    OneWay(NameText(a), NameText(a));
  }

  lemma ComesTransitive(a: Name, b: Name, c: Name, byDepth: bool)
    requires Comes(a, b, byDepth) && Comes(b, c, byDepth)
    ensures Comes(a, c, byDepth)
  {
    if !byDepth || (|a| == |b| && |b| == |c|) { TextLessTransitive(NameText(a), NameText(b), NameText(c)); }
  }

  predicate Sorted(order: seq<Name>, byDepth: bool) {
    forall i, j :: 0 <= i < j < |order| ==> !Comes(order[j], order[i], byDepth)
  }

  predicate ByDepth(order: seq<Name>) {
    forall i, j :: 0 <= i < j < |order| ==> |order[i]| <= |order[j]|
  }

  lemma SortedByDepth(order: seq<Name>)
    requires Sorted(order, true)
    ensures ByDepth(order)
  {
    forall i, j | 0 <= i < j < |order|
      ensures |order[i]| <= |order[j]|
    {
      assert !Comes(order[j], order[i], true);
    }
  }

  /** The first name of a set. */
  method First(names: set<Name>, byDepth: bool) returns (least: Name)
    requires names != {}
    ensures least in names && forall n :: n in names ==> !Comes(n, least, byDepth)
  {
    least :| least in names;
    ComesOnce(least, byDepth);
    var todo := names - {least};
    while todo != {}
      invariant todo <= names && least in names
      invariant forall n :: n in names && n !in todo ==> !Comes(n, least, byDepth)
      decreases |todo|
    {
      var n :| n in todo;
      if Comes(n, least, byDepth) {
        forall m | m in names && m !in todo
          ensures !Comes(m, n, byDepth)
        {
          if Comes(m, n, byDepth) { ComesTransitive(m, n, least, byDepth); }
        }
        ComesOnce(n, byDepth);
        least := n;
      }
      todo := todo - {n};
    }
  }

  /** The names of a set in the order of their keys. */
  method SortNames(names: set<Name>, byDepth: bool) returns (order: seq<Name>)
    ensures Lists(order, names) && Sorted(order, byDepth)
  {
    order := [];
    var todo := names;
    while todo != {}
      invariant todo <= names && |order| + |todo| == |names|
      invariant forall n :: n in order <==> n in names && n !in todo
      invariant forall i, j :: 0 <= i < j < |order| ==> order[i] != order[j]
      invariant Sorted(order, byDepth)
      invariant forall i, n :: 0 <= i < |order| && n in todo ==> !Comes(n, order[i], byDepth)
      decreases |todo|
    {
      var next := First(todo, byDepth);
      forall i | 0 <= i < |order|
        ensures order[i] != next
      {
        assert order[i] in order;
      }
      order := order + [next];
      todo := todo - {next};
    }
  }

  // ------------------------------------------------------------------------ what is made

  /** The tree with the first `k` listed nodes made. */
  function Made(before: Tree, order: seq<Name>, node: Name -> Node, k: nat): Tree
    requires k <= |order|
  {
    if k == 0 then before else Made(before, order, node, k - 1)[order[k - 1] := node(order[k - 1])]
  }

  lemma {:induction false} MadeHolds(before: Tree, order: seq<Name>, node: Name -> Node, k: nat, n: Name)
    requires k <= |order|
    ensures n in Made(before, order, node, k) <==> n in before || n in order[..k]
    ensures n in order[..k] ==> Made(before, order, node, k)[n] == node(n)
    ensures n in before && n !in order[..k] ==> Made(before, order, node, k)[n] == before[n]
    decreases k
  {
    if k > 0 {
      MadeHolds(before, order, node, k - 1, n);
      assert order[..k] == order[..k - 1] + [order[k - 1]];
    }
  }

  /** A whole listing made is a map added. */
  lemma MadeAll(before: Tree, order: seq<Name>, node: Name -> Node, nodes: map<Name, Node>)
    requires forall n :: n in order <==> n in nodes
    requires forall n :: n in nodes ==> nodes[n] == node(n)
    ensures Made(before, order, node, |order|) == before + nodes
  {
    forall n
      ensures SameAt(Made(before, order, node, |order|), before + nodes, n)
    {
      MadeAt(before, order, node, nodes, n);
    }
    SameEverywhere(Made(before, order, node, |order|), before + nodes);
  }

  predicate SameAt(a: Tree, b: Tree, n: Name) {
    (n in a <==> n in b) && (n in a ==> a[n] == b[n])
  }

  lemma SameEverywhere(a: Tree, b: Tree)
    requires forall n :: SameAt(a, b, n)
    ensures a == b
  {
    assert forall n :: n in a ==> SameAt(a, b, n);
    assert forall n :: n in b ==> SameAt(a, b, n);
  }

  lemma MadeAt(before: Tree, order: seq<Name>, node: Name -> Node, nodes: map<Name, Node>, n: Name)
    requires forall n :: n in order <==> n in nodes
    requires forall n :: n in nodes ==> nodes[n] == node(n)
    ensures SameAt(Made(before, order, node, |order|), before + nodes, n)
  {
    assert order[..|order|] == order;
    MadeHolds(before, order, node, |order|, n);
  }

  /** The declared tree added to what was there. */
  function Declared(before: Tree, plan: Plan): Tree {
    before + DirNodes(plan) + plan.files
  }

  function DirNodes(plan: Plan): map<Name, Node> {
    map n | n in plan.dirs :: Dir(MODE_755)
  }

  function DirNode(): Name -> Node { (n: Name) => Dir(MODE_755) }

  /** Everything that was there is as it was, and everything new is under the root. */
  ghost predicate OnlyUnder(tree: Tree, before: Tree, root: string) {
    && (forall n :: n in before ==> n in tree && tree[n] == before[n])
    && (forall n :: n in tree && n !in before ==> |n| >= 1 && n[0] == root)
  }

  ghost predicate NothingUnder(tree: Tree, root: string) {
    forall n :: n in tree ==> |n| >= 1 && n[0] != root
  }

  lemma {:induction false} AbsentRoot(tree: Tree, root: string, n: Name)
    requires WellFormed(tree) && [root] !in tree && n in tree
    ensures |n| >= 1 && n[0] != root
    decreases |n|
  {
    assert HasParent(tree, n);
    if |n| > 1 {
      AbsentRoot(tree, root, n[..|n| - 1]);
    } else {
      assert n == [n[0]];
    }
  }

  lemma NothingUnderAbsent(tree: Tree, root: string)
    requires WellFormed(tree) && [root] !in tree
    ensures NothingUnder(tree, root)
  {
    forall n | n in tree
      ensures |n| >= 1 && n[0] != root
    {
      AbsentRoot(tree, root, n);
    }
  }

  /** Removing the root undoes everything done under it. */
  lemma RemovalRestores(tree: Tree, before: Tree, root: string)
    requires OnlyUnder(tree, before, root) && NothingUnder(before, root)
    ensures (map n | n in tree && !(|n| >= 1 && n[0] == root) :: tree[n]) == before
  {
  }

  // ----------------------------------------------------------------------------- directories

  /** A listed directory's parent is listed before it. */
  lemma ParentListedBefore(plan: Plan, root: string, order: seq<Name>, k: nat)
    requires Sound(plan, root) && Lists(order, plan.dirs) && ByDepth(order) && k < |order| && |order[k]| > 1
    ensures order[k][..|order[k]| - 1] in order[..k]
  {
    var name := order[k];
    var parent := name[..|name| - 1];
    assert name in order && Closed(name, plan.dirs) && parent in plan.dirs;
    var j :| 0 <= j < |order| && order[j] == parent;
    assert j < k;
    assert order[..k][j] == parent;
  }

  lemma RootListedFirst(plan: Plan, root: string, order: seq<Name>)
    requires Sound(plan, root) && Lists(order, plan.dirs) && ByDepth(order)
    ensures |order| > 0 && order[0] == [root]
  {
    assert [root] in order;
    var j :| 0 <= j < |order| && order[j] == [root];
    assert order[0] in order;
    assert |order[0]| == 1 && order[0][0] == root;
  }

  ghost predicate NoFault(fault: nat -> bool, start: nat, end: nat) {
    forall k :: start <= k < end ==> !fault(k)
  }

  lemma NoFaultJoins(fault: nat -> bool, a: nat, b: nat, c: nat)
    requires a <= b <= c
    ensures NoFault(fault, a, c) <==> NoFault(fault, a, b) && NoFault(fault, b, c)
  {
  }

  lemma ThreeOps(fault: nat -> bool, a: nat)
    ensures NoFault(fault, a, a + 3) <==> !fault(a) && !fault(a + 1) && !fault(a + 2)
  {
  }

  /** What a directory whose making was cut short leaves: nothing, one whose mode was not
      set, or one not yet recorded. */
  function CutShort(before: Tree, name: Name, mode: nat, fault: nat -> bool, start: nat): Tree {
    if fault(start) then before
    else if fault(start + 1) then before[name := Dir(mode)]
    else before[name := Dir(MODE_755)]
  }

  /** One directory: made under its parent, given its mode, and on to the record of it. */
  method MakeDir(disk: Disk, name: Name, ghost before: Tree, root: string) returns (ok: bool)
    requires name !in disk.tree && HasParent(disk.tree, name) && |name| >= 1 && name[0] == root
    requires OnlyUnder(disk.tree, before, root)
    modifies disk
    ensures ok ==> disk.tree == old(disk.tree)[name := Dir(MODE_755)] && disk.ops == old(disk.ops) + 3
    ensures ok <==> !disk.fault(old(disk.ops)) && !disk.fault(old(disk.ops) + 1) && !disk.fault(old(disk.ops) + 2)
    ensures OnlyUnder(disk.tree, before, root)
    ensures !ok ==> disk.tree == CutShort(old(disk.tree), name, disk.dirMode, disk.fault, old(disk.ops))
  {
    ok := disk.Mkdir(name);
    if ok {
      ok := disk.Chmod(name, MODE_755);
    }
    if ok {
      ok := disk.Proceed();
    }
  }

  /** Node `k` of a listing can be made once those before it are: it is absent and its parent present. */
  predicate Ready(before: Tree, order: seq<Name>, node: Name -> Node, root: string, k: nat)
    requires k < |order|
  {
    var now := Made(before, order, node, k);
    && order[k] !in now && HasParent(now, order[k])
    && |order[k]| >= 1 && order[k][0] == root
  }

  predicate AllReady(before: Tree, order: seq<Name>, node: Name -> Node, root: string) {
    forall k :: 0 <= k < |order| ==> Ready(before, order, node, root, k)
  }

  lemma {:induction false} MadeUnder(before: Tree, order: seq<Name>, node: Name -> Node, root: string, k: nat)
    requires k <= |order| && AllReady(before, order, node, root)
    ensures OnlyUnder(Made(before, order, node, k), before, root)
    decreases k
  {
    if k > 0 {
      MadeUnder(before, order, node, root, k - 1);
      assert Ready(before, order, node, root, k - 1);
    }
  }

  /** The body of the first creation loop; whether the destination itself was made. */
  method MakeNth(disk: Disk, order: seq<Name>, root: string, k: nat, ghost before: Tree) returns (ok: bool, isRoot: bool)
    requires k < |order| && AllReady(before, order, DirNode(), root) && RootFirst(order, root)
    requires disk.tree == Made(before, order, DirNode(), k)
    modifies disk
    ensures ok ==> disk.tree == Made(before, order, DirNode(), k + 1) && disk.ops == old(disk.ops) + 3
    ensures ok <==> NoFault(disk.fault, old(disk.ops), old(disk.ops) + 3)
    ensures OnlyUnder(disk.tree, before, root)
    ensures !ok && k == 0 ==> disk.tree == CutShort(before, [root], disk.dirMode, disk.fault, old(disk.ops))
    ensures isRoot <==> k == 0
  {
    assert Ready(before, order, DirNode(), root, k);
    MadeUnder(before, order, DirNode(), root, k);
    ThreeOps(disk.fault, disk.ops);
    ok := MakeDir(disk, order[k], before, root);
    isRoot := order[k] == [root];
  }

  /** The first creation loop, over the sorted directories. */
  method MakeListed(disk: Disk, order: seq<Name>, root: string) returns (ok: bool, created: bool)
    requires order != [] && AllReady(disk.tree, order, DirNode(), root) && RootFirst(order, root)
    modifies disk
    ensures ok ==> disk.ops == old(disk.ops) + 3 * |order| && disk.tree == Made(old(disk.tree), order, DirNode(), |order|)
    ensures ok <==> NoFault(disk.fault, old(disk.ops), old(disk.ops) + 3 * |order|)
    ensures OnlyUnder(disk.tree, old(disk.tree), root)
    ensures created <==> NoFault(disk.fault, old(disk.ops), old(disk.ops) + 3)
    ensures !created ==> disk.tree == CutShort(old(disk.tree), [root], disk.dirMode, disk.fault, old(disk.ops))
  {
    ghost var before, start := disk.tree, disk.ops;
    created := false;
    for k := 0 to |order|
      invariant disk.ops == start + 3 * k && NoFault(disk.fault, start, disk.ops)
      invariant disk.tree == Made(before, order, DirNode(), k)
      invariant created <==> k > 0
      invariant k > 0 ==> NoFault(disk.fault, start, start + 3)
    {
      ghost var here := disk.ops;
      var isRoot;
      ok, isRoot := MakeNth(disk, order, root, k, before);
      NoFaultJoins(disk.fault, start, here, here + 3);
      NoFaultJoins(disk.fault, start, here + 3, start + 3 * |order|);
      if !ok {
        return false, created;
      }
      if isRoot {
        created := true;
      }
    }
    MadeUnder(before, order, DirNode(), root, |order|);
    ok := true;
  }

  predicate RootFirst(order: seq<Name>, root: string) {
    forall k :: 0 <= k < |order| ==> (order[k] == [root] <==> k == 0)
  }

  lemma DirIsReady(before: Tree, plan: Plan, root: string, order: seq<Name>, k: nat)
    requires Sound(plan, root) && NothingUnder(before, root)
    requires Lists(order, plan.dirs) && ByDepth(order) && k < |order|
    ensures Ready(before, order, DirNode(), root, k)
  {
    var name := order[k];
    assert name in order && name in plan.dirs;
    MadeHolds(before, order, DirNode(), k, name);
    if |name| > 1 {
      ParentListedBefore(plan, root, order, k);
      MadeHolds(before, order, DirNode(), k, name[..|name| - 1]);
    }
  }

  lemma DirsAreReady(before: Tree, plan: Plan, root: string, order: seq<Name>)
    requires Sound(plan, root) && NothingUnder(before, root) && Lists(order, plan.dirs) && ByDepth(order)
    ensures order != [] && RootFirst(order, root) && AllReady(before, order, DirNode(), root)
  {
    RootListedFirst(plan, root, order);
    forall k | 0 <= k < |order|
      ensures Ready(before, order, DirNode(), root, k)
    {
      DirIsReady(before, plan, root, order, k);
    }
  }

  method MakeDirs(disk: Disk, plan: Plan, root: string) returns (ok: bool, created: bool)
    requires Sound(plan, root) && NothingUnder(disk.tree, root)
    modifies disk
    ensures ok ==> disk.ops == old(disk.ops) + 3 * |plan.dirs| && disk.tree == old(disk.tree) + DirNodes(plan)
    ensures ok <==> NoFault(disk.fault, old(disk.ops), old(disk.ops) + 3 * |plan.dirs|)
    ensures OnlyUnder(disk.tree, old(disk.tree), root)
    ensures created <==> NoFault(disk.fault, old(disk.ops), old(disk.ops) + 3)
    ensures !created ==> disk.tree == CutShort(old(disk.tree), [root], disk.dirMode, disk.fault, old(disk.ops))
    ensures ok ==> created
  {
    var order := SortNames(plan.dirs, true);
    SortedByDepth(order);
    DirsAreReady(disk.tree, plan, root, order);
    MadeAll(disk.tree, order, DirNode(), DirNodes(plan));
    ok, created := MakeListed(disk, order, root);
  }

  // ------------------------------------------------------------------------------- files

  function FileNode(plan: Plan): Name -> Node {
    (n: Name) => if n in plan.files then plan.files[n] else Dir(0)
  }

  lemma UnderStill(tree: Tree, before: Tree, root: string, name: Name, node: Node)
    requires OnlyUnder(tree, before, root) && name !in before && |name| >= 1 && name[0] == root
    ensures OnlyUnder(tree[name := node], before, root)
  {
  }

  lemma FiveOps(fault: nat -> bool, a: nat)
    ensures NoFault(fault, a, a + 5) <==> !fault(a) && !fault(a + 1) && NoFault(fault, a + 2, a + 5)
  {
  }

  /** A file just opened: copied, given its mode, and on to the next. */
  method FillFile(disk: Disk, name: Name, node: Node) returns (ok: bool, ghost left: Node)
    requires name in disk.tree && disk.tree[name].File? && node.File?
    modifies disk
    ensures disk.tree == old(disk.tree)[name := left] && (ok ==> left == node && disk.ops == old(disk.ops) + 3)
    ensures ok <==> NoFault(disk.fault, old(disk.ops), old(disk.ops) + 3)
  {
    ThreeOps(disk.fault, disk.ops);
    ok := disk.Copy(name, node.data);
    if ok {
      ok := disk.Chmod(name, node.mode);
    }
    left := disk.tree[name];
    if ok {
      ok := disk.Proceed();
    }
  }

  /** One file: read, opened anew under its parent, and filled. */
  method MakeFile(disk: Disk, name: Name, node: Node, ghost before: Tree, root: string) returns (ok: bool)
    requires name !in disk.tree && HasParent(disk.tree, name) && |name| >= 1 && name[0] == root && node.File?
    requires OnlyUnder(disk.tree, before, root)
    modifies disk
    ensures ok ==> disk.tree == old(disk.tree)[name := node] && disk.ops == old(disk.ops) + 5
    ensures ok <==> NoFault(disk.fault, old(disk.ops), old(disk.ops) + 5)
    ensures OnlyUnder(disk.tree, before, root)
  {
    FiveOps(disk.fault, disk.ops);
    ok := disk.ReadMember();
    if !ok {
      return;
    }
    ok := disk.Create(name);
    if !ok {
      return;
    }
    ghost var left;
    ok, left := FillFile(disk, name, node);
    assert disk.tree == old(disk.tree)[name := left];
    UnderStill(old(disk.tree), before, root, name, left);
  }

  lemma FileIsReady(before: Tree, plan: Plan, root: string, order: seq<Name>, k: nat)
    requires Sound(plan, root) && NothingUnder(before, root) && Lists(order, plan.files.Keys) && k < |order|
    ensures Ready(before + DirNodes(plan), order, FileNode(plan), root, k)
  {
    var name := order[k];
    var now := before + DirNodes(plan);
    assert name in order && name in plan.files && name !in plan.dirs;
    MadeHolds(now, order, FileNode(plan), k, name);
    if |name| > 1 {
      var parent := name[..|name| - 1];
      assert Closed(name, plan.dirs) && parent in plan.dirs;
      MadeHolds(now, order, FileNode(plan), k, parent);
      assert parent !in plan.files;
    } 
  }

  lemma FilesAreReady(before: Tree, plan: Plan, root: string, order: seq<Name>)
    requires Sound(plan, root) && NothingUnder(before, root) && Lists(order, plan.files.Keys)
    ensures AllReady(before + DirNodes(plan), order, FileNode(plan), root)
  {
    forall k | 0 <= k < |order|
      ensures Ready(before + DirNodes(plan), order, FileNode(plan), root, k)
    {
      FileIsReady(before, plan, root, order, k);
    }
  }

  /** The body of the second creation loop. */
  method MakeNthFile(disk: Disk, plan: Plan, order: seq<Name>, root: string, k: nat, ghost start: Tree, ghost before: Tree)
    returns (ok: bool)
    requires k < |order| && AllReady(start, order, FileNode(plan), root) && AllFiles(plan, order)
    requires disk.tree == Made(start, order, FileNode(plan), k) && OnlyUnder(disk.tree, before, root)
    modifies disk
    ensures ok ==> disk.tree == Made(start, order, FileNode(plan), k + 1) && disk.ops == old(disk.ops) + 5
    ensures ok <==> NoFault(disk.fault, old(disk.ops), old(disk.ops) + 5)
    ensures OnlyUnder(disk.tree, before, root)
  {
    assert Ready(start, order, FileNode(plan), root, k);
    ok := MakeFile(disk, order[k], plan.files[order[k]], before, root);
  }

  predicate AllFiles(plan: Plan, order: seq<Name>) {
    forall k :: 0 <= k < |order| ==> order[k] in plan.files && plan.files[order[k]].File?
  }

  /** The second creation loop, over the files in the order given. */
  method MakeListedFiles(disk: Disk, plan: Plan, order: seq<Name>, root: string, ghost before: Tree) returns (ok: bool)
    requires AllReady(disk.tree, order, FileNode(plan), root) && AllFiles(plan, order)
    requires OnlyUnder(disk.tree, before, root)
    modifies disk
    ensures ok ==> disk.tree == Made(old(disk.tree), order, FileNode(plan), |order|)
    ensures ok <==> NoFault(disk.fault, old(disk.ops), old(disk.ops) + 5 * |order|)
    ensures OnlyUnder(disk.tree, before, root)
  {
    ghost var tree, start := disk.tree, disk.ops;
    for k := 0 to |order|
      invariant disk.ops == start + 5 * k && NoFault(disk.fault, start, start + 5 * k)
      invariant disk.tree == Made(tree, order, FileNode(plan), k) && OnlyUnder(disk.tree, before, root)
    {
      ok := MakeNthFile(disk, plan, order, root, k, tree, before);
      NoFaultJoins(disk.fault, start, start + 5 * k, start + 5 * k + 5);
      NoFaultJoins(disk.fault, start, start + 5 * k + 5, start + 5 * |order|);
      if !ok {
        return false;
      }
    }
    ok := true;
  }

  lemma ListedAreFiles(plan: Plan, root: string, order: seq<Name>)
    requires Sound(plan, root) && Lists(order, plan.files.Keys)
    ensures AllFiles(plan, order)
  {
    forall k | 0 <= k < |order|
      ensures order[k] in plan.files && plan.files[order[k]].File?
    {
      assert order[k] in order;
    }
  }

  /** The files by name; every parent is there already. */
  method MakeFiles(disk: Disk, plan: Plan, root: string, ghost before: Tree) returns (ok: bool)
    requires Sound(plan, root) && NothingUnder(before, root)
    requires disk.tree == before + DirNodes(plan) && OnlyUnder(disk.tree, before, root)
    modifies disk
    ensures ok ==> disk.tree == Declared(before, plan)
    ensures ok <==> NoFault(disk.fault, old(disk.ops), old(disk.ops) + 5 * |plan.files|)
    ensures OnlyUnder(disk.tree, before, root)
  {
    var order := SortNames(plan.files.Keys, false);
    FilesAreReady(before, plan, root, order);
    ListedAreFiles(plan, root, order);
    MadeAll(disk.tree, order, FileNode(plan), plan.files);
    ok := MakeListedFiles(disk, plan, order, root, before);
  }

  /** Both creation loops; whether the destination was recorded as made. */
  method MakeAll(disk: Disk, plan: Plan, root: string) returns (ok: bool, created: bool)
    requires Sound(plan, root) && NothingUnder(disk.tree, root)
    modifies disk
    ensures ok ==> created && disk.tree == Declared(old(disk.tree), plan)
    ensures ok <==> NoFault(disk.fault, old(disk.ops), old(disk.ops) + 3 * |plan.dirs| + 5 * |plan.files|)
    ensures OnlyUnder(disk.tree, old(disk.tree), root)
    ensures created <==> NoFault(disk.fault, old(disk.ops), old(disk.ops) + 3)
    ensures !created ==> disk.tree == CutShort(old(disk.tree), [root], disk.dirMode, disk.fault, old(disk.ops))
  {
    ghost var before, start := disk.tree, disk.ops;
    ok, created := MakeDirs(disk, plan, root);
    NoFaultJoins(disk.fault, start, start + 3 * |plan.dirs|, start + 3 * |plan.dirs| + 5 * |plan.files|);
    if ok {
      ok := MakeFiles(disk, plan, root, before);
    }
  }

  /** The rollback: everything under the root goes, which is everything that was added. */
  method Undo(disk: Disk, ghost before: Tree, root: string)
    requires OnlyUnder(disk.tree, before, root) && NothingUnder(before, root)
    modifies disk`tree
    ensures disk.tree == before
  {
    RemovalRestores(disk.tree, before, root);
    disk.RemoveTree(root);
  }

  /** The `try` block and its rollback, for a destination that is not there yet. */
  method ExtractNew(disk: Disk, plan: Plan, root: string) returns (ok: bool)
    requires Sound(plan, root) && NothingUnder(disk.tree, root)
    modifies disk
    ensures ok <==> NoFault(disk.fault, old(disk.ops), old(disk.ops) + 3 * |plan.dirs| + 5 * |plan.files|)
    ensures ok ==> disk.tree == Declared(old(disk.tree), plan)
    ensures !ok ==> disk.tree == if NoFault(disk.fault, old(disk.ops), old(disk.ops) + 3) then old(disk.tree)
                                 else CutShort(old(disk.tree), [root], disk.dirMode, disk.fault, old(disk.ops))
  {
    var created;
    ok, created := MakeAll(disk, plan, root);
    if !ok && created {
      Undo(disk, old(disk.tree), root);
    }
  }

  /**
    The extraction of an accepted archive. It succeeds exactly when nothing fails, and
    then leaves the declared tree; otherwise it leaves what was there, except after a
    fault on the `chmod` of the root or an interrupt before the root is recorded, which
    leave the bare root directory.
   */
  method Extract(disk: Disk, plan: Plan, root: string) returns (ok: bool)
    requires Sound(plan, root) && WellFormed(disk.tree)
    modifies disk
    ensures ok <==> [root] !in old(disk.tree) &&
                    NoFault(disk.fault, old(disk.ops), old(disk.ops) + 3 * |plan.dirs| + 5 * |plan.files|)
    ensures ok ==> disk.tree == Declared(old(disk.tree), plan)
    ensures !ok ==> disk.tree == if RootLeft(old(disk.tree), root, disk.fault, old(disk.ops))
                                 then CutShort(old(disk.tree), [root], disk.dirMode, disk.fault, old(disk.ops))
                                 else old(disk.tree)
  {
    if [root] in disk.tree {
      return false;
    }
    NothingUnderAbsent(disk.tree, root);
    ok := ExtractNew(disk, plan, root);
    ThreeOps(disk.fault, old(disk.ops));
  }

  /** The destination is new and its `mkdir` succeeds, but its `chmod` fails or an interrupt comes before its record. */
  predicate RootLeft(before: Tree, root: string, fault: nat -> bool, start: nat) {
    [root] !in before && !fault(start) && (fault(start + 1) || fault(start + 2))
  }

  // --------------------------------------------------------------------- a whole archive

  /** The members, each exactly as declared, beside what was there, and nothing else. */
  ghost predicate ExactTree(tree: Tree, before: Tree, members: seq<Member>) {
    && (forall m :: m in members ==> Parts(m) in tree && tree[Parts(m)] == NodeOf(m))
    && (forall n :: n in before ==> n in tree && tree[n] == before[n])
    && (forall n :: n in tree && n !in before ==> exists m :: m in members && Parts(m) == n)
  }

  /** Each member a directory of mode 0755, or a file with its own contents and mode 0644 or 0755. */
  ghost predicate NormalModes(tree: Tree, members: seq<Member>) {
    forall m :: m in members ==>
      Parts(m) in tree &&
      match tree[Parts(m)]
      case Dir(mode) => m.kind == Directory && mode == 7 * 64 + 5 * 8 + 5
      case File(mode, data) =>
        m.kind == Regular && data == m.data && (mode == 6 * 64 + 4 * 8 + 4 || mode == 7 * 64 + 5 * 8 + 5)
  }

  lemma ExactIsNormal(tree: Tree, before: Tree, members: seq<Member>, root: string)
    requires Accepted(members, root) && ExactTree(tree, before, members)
    ensures NormalModes(tree, members)
  {
    forall m | m in members
      ensures Parts(m) in tree && tree[Parts(m)] == NodeOf(m) && Normalized(m)
    {
    }
  }

  lemma DeclaredIsExact(before: Tree, members: seq<Member>, root: string, plan: Plan)
    requires Accepted(members, root) && Declares(members, plan) && Sound(plan, root) && NothingUnder(before, root)
    ensures ExactTree(Declared(before, plan), before, members)
  {
    var tree := Declared(before, plan);
    forall m | m in members
      ensures Parts(m) in tree && tree[Parts(m)] == NodeOf(m)
    {
      assert Normalized(m);
      if m.kind == Directory {
        assert Parts(m) in plan.dirs && Parts(m) !in plan.files;
      }
    }
    forall n | n in tree && n !in before
      ensures exists m :: m in members && Parts(m) == n
    {
      assert n in plan.dirs || n in plan.files;
    }
    forall n | n in before
      ensures n in tree && tree[n] == before[n]
    {
      assert n !in plan.dirs && n !in plan.files;
    }
  }

  /** Validation and extraction together. */
  method ExtractArchive(disk: Disk, members: seq<Member>, root: string) returns (ok: bool)
    requires WellFormed(disk.tree)
    modifies disk
    ensures ok ==> Accepted(members, root) && ExactTree(disk.tree, old(disk.tree), members)
    ensures ok ==> NormalModes(disk.tree, members)
    ensures !ok ==> disk.tree == old(disk.tree) ||
                    (RootLeft(old(disk.tree), root, disk.fault, old(disk.ops)) &&
                     disk.tree == CutShort(old(disk.tree), [root], disk.dirMode, disk.fault, old(disk.ops)))
    ensures Accepted(members, root) && [root] !in old(disk.tree) && (forall k :: !disk.fault(k)) ==> ok
    ensures !Accepted(members, root) ==> disk.tree == old(disk.tree)
  {
    var plan := C.Validate(members, root);
    if plan.None? {
      return false;
    }
    ok := Extract(disk, plan.value, root);
    if ok {
      NothingUnderAbsent(old(disk.tree), root);
      DeclaredIsExact(old(disk.tree), members, root, plan.value);
      ExactIsNormal(disk.tree, old(disk.tree), members, root);
    }
  }
}
