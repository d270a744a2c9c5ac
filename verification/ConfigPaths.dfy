/**
  Config path identity: the rewrite of `resolve_once` and `resolved_identity`
  against a filesystem with symbolic links, now and after it has grown.
 */
module ConfigPaths {
  import opened Basics

  datatype Component = Normal(name: string) | CurDir | ParentDir
  datatype Path = Path(absolute: bool, comps: seq<Component>)

  /** A place in the tree, as the names from the root down. */
  type Loc = seq<string>

  datatype Object = Dir | File | Link(target: Path)
  type Fs = map<Loc, Object>

  predicate WellFormed(fs: Fs) {
    && [] in fs && fs[[]].Dir?
    && forall l {:trigger Up(l)} :: l in fs && l != [] ==> Up(l) in fs && fs[Up(l)].Dir?
  }

  function Up(l: Loc): Loc {
    if l == [] then [] else l[..|l| - 1]
  }

  predicate IsDir(fs: Fs, l: Loc) { l in fs && fs[l].Dir? }
  predicate IsLink(fs: Fs, l: Loc) { l in fs && fs[l].Link? }

  // -------------------------------------------------------------- kernel resolution

  const MAX_LINKS: nat := 40

  datatype Walked = Failed | At(loc: Loc, left: nat)

  /** Follow `comps` from `at`, spending one of `left` per link. */
  function Walk(fs: Fs, at: Loc, comps: seq<Component>, left: nat): Walked
    decreases left, |comps|
  {
    if comps == [] then At(at, left)
    else if !IsDir(fs, at) then Failed
    else match comps[0]
      case CurDir => Walk(fs, at, comps[1..], left)
      case ParentDir => Walk(fs, Up(at), comps[1..], left)
      case Normal(n) =>
        var child := at + [n];
        if child !in fs then Failed
        else match fs[child]
          case Link(t) =>
            if left == 0 then Failed
            else Walk(fs, if t.absolute then [] else at, t.comps + comps[1..], left - 1)
          case _ => Walk(fs, child, comps[1..], left)
  }

  /** `canonicalize`, for a process whose working directory is `cwd`. */
  function Canonicalize(fs: Fs, cwd: Loc, p: Path): Option<Loc> {
    match Walk(fs, if p.absolute then [] else cwd, p.comps, MAX_LINKS)
    case Failed => None
    case At(l, _) => Some(l)
  }

  function Names(l: Loc): seq<Component> {
    seq(|l|, i requires 0 <= i < |l| => Normal(l[i]))
  }

  function Spelled(l: Loc): Path { Path(true, Names(l)) }

  // ---------------------------------------------------------------------- the code

  /** The remaining components, pushed and popped lexically. */
  function Fold(base: Loc, rest: seq<Component>): Loc
    decreases |rest|
  {
    if rest == [] then base
    else match rest[0]
      case Normal(n) => Fold(base + [n], rest[1..])
      case CurDir => Fold(base, rest[1..])
      case ParentDir => Fold(Up(base), rest[1..])
  }

  /** The shortest prefix tried: the root itself, or a first component. */
  function FirstSplit(p: Path): nat { if p.absolute then 0 else 1 }

  function Prefix(p: Path, k: nat): Path
    requires k <= |p.comps|
  {
    p.(comps := p.comps[..k])
  }

  /** The longest prefix of at most `k` components that exists. */
  function Deepest(fs: Fs, cwd: Loc, p: Path, k: int): (r: Option<nat>)
    requires k <= |p.comps|
    ensures r.Some? ==> FirstSplit(p) <= r.value <= k && Canonicalize(fs, cwd, Prefix(p, r.value)).Some?
    ensures forall j :: FirstSplit(p) <= j <= k && Canonicalize(fs, cwd, Prefix(p, j)).Some? ==>
              r.Some? && j <= r.value
    decreases k - FirstSplit(p) + 1
  {
    if k < FirstSplit(p) then None
    else if Canonicalize(fs, cwd, Prefix(p, k)).Some? then Some(k)
    else Deepest(fs, cwd, p, k - 1)
  }

  /** `resolve_once`. */
  function Resolve(fs: Fs, cwd: Loc, p: Path): Path {
    match Deepest(fs, cwd, p, |p.comps|)
    case None => p
    case Some(k) => Spelled(Fold(Canonicalize(fs, cwd, Prefix(p, k)).value, p.comps[k..]))
  }

  /** The two nested loops of `resolve_once`. */
  method ResolveOnce(fs: Fs, cwd: Loc, p: Path) returns (q: Path)
    ensures q == Resolve(fs, cwd, p)
  {
    var split: int := |p.comps|;
    while split >= FirstSplit(p)
      invariant split <= |p.comps|
      invariant Deepest(fs, cwd, p, |p.comps|) == Deepest(fs, cwd, p, split)
      decreases split
    {
      var base := Canonicalize(fs, cwd, Prefix(p, split));
      if base.Some? {
        var cur, i := base.value, split;
        while i < |p.comps|
          invariant split <= i <= |p.comps|
          invariant Fold(base.value, p.comps[split..]) == Fold(cur, p.comps[i..])
          decreases |p.comps| - i
        {
          assert p.comps[i..][1..] == p.comps[i + 1..];
          match p.comps[i] {
            case Normal(n) => cur := cur + [n];
            case CurDir =>
            case ParentDir => cur := Up(cur);
          }
          i := i + 1;
        }
        return Spelled(cur);
      }
      split := split - 1;
    }
    q := p;
  }

  const RESOLVE_PASSES: nat := 4

  /** `resolve_once` until the spelling stops changing, at most `passes` times. */
  function Identity(fs: Fs, cwd: Loc, p: Path, passes: nat): Path
    decreases passes
  {
    if passes == 0 then p
    else
      var q := Resolve(fs, cwd, p);
      if q == p then p else Identity(fs, cwd, q, passes - 1)
  }

  method ResolvedIdentity(fs: Fs, cwd: Loc, p: Path) returns (r: Path)
    ensures r == Identity(fs, cwd, p, RESOLVE_PASSES)
  {
    r := p;
    for i := 0 to RESOLVE_PASSES
      invariant Identity(fs, cwd, p, RESOLVE_PASSES) == Identity(fs, cwd, r, RESOLVE_PASSES - i)
    {
      var folded := ResolveOnce(fs, cwd, r);
      if folded == r { return; }
      r := folded;
    }
  }

  function NamesADifferentFile(fs: Fs, cwd: Loc, a: Path, b: Path): bool {
    Identity(fs, cwd, a, RESOLVE_PASSES) != Identity(fs, cwd, b, RESOLVE_PASSES)
  }

  // -------------------------------------------------------------- facts about walks

  predicate Extends(fs: Fs, later: Fs) {
    forall l :: l in fs ==> l in later && later[l] == fs[l]
  }

  /** A later filesystem: plain files and directories have been added, nothing else. */
  predicate Grown(fs: Fs, later: Fs) {
    && WellFormed(fs) && WellFormed(later) && Extends(fs, later)
    && (forall l :: l in later && l !in fs ==> !later[l].Link?)
  }

  /** Walking two stretches is walking one and then the other. */
  lemma {:induction false} WalkAppend(fs: Fs, at: Loc, xs: seq<Component>, ys: seq<Component>, left: nat)
    ensures Walk(fs, at, xs + ys, left) ==
            match Walk(fs, at, xs, left) case Failed => (if xs == [] then Walk(fs, at, ys, left) else Failed)
                                         case At(l, k) => Walk(fs, l, ys, k)
    decreases left, |xs|
  {
    if xs == [] {
      assert xs + ys == ys;
    } else {
      assert (xs + ys)[1..] == xs[1..] + ys && (xs + ys)[0] == xs[0];
      if IsDir(fs, at) {
        match xs[0]
        case CurDir => WalkAppend(fs, at, xs[1..], ys, left);
        case ParentDir => WalkAppend(fs, Up(at), xs[1..], ys, left);
        case Normal(n) =>
          var child := at + [n];
          if child in fs {
            match fs[child]
            case Link(t) =>
              if left > 0 {
                assert t.comps + (xs[1..] + ys) == (t.comps + xs[1..]) + ys;
                WalkAppend(fs, if t.absolute then [] else at, t.comps + xs[1..], ys, left - 1);
              }
            case _ => WalkAppend(fs, child, xs[1..], ys, left);
          }
      }
    }
  }

  /** What resolves now resolves the same later, and with links to spare. */
  lemma {:induction false} WalkLater(fs: Fs, later: Fs, at: Loc, comps: seq<Component>, left: nat, more: nat)
    requires Extends(fs, later) && Walk(fs, at, comps, left).At?
    ensures var w := Walk(fs, at, comps, left); Walk(later, at, comps, left + more) == At(w.loc, w.left + more)
    decreases left, |comps|
  {
    if comps != [] {
      match comps[0]
      case CurDir => WalkLater(fs, later, at, comps[1..], left, more);
      case ParentDir => WalkLater(fs, later, Up(at), comps[1..], left, more);
      case Normal(n) =>
        var child := at + [n];
        match fs[child]
        case Link(t) =>
          WalkLater(fs, later, if t.absolute then [] else at, t.comps + comps[1..], left - 1, more);
        case _ => WalkLater(fs, later, child, comps[1..], left, more);
    }
  }

  /** A walk ends at something that exists and is not a link. */
  lemma {:induction false} WalkEndsAtReal(fs: Fs, at: Loc, comps: seq<Component>, left: nat)
    requires WellFormed(fs) && at in fs && !fs[at].Link? && Walk(fs, at, comps, left).At?
    ensures var l := Walk(fs, at, comps, left).loc; l in fs && !fs[l].Link?
    decreases left, |comps|
  {
    if comps != [] {
      match comps[0]
      case CurDir => WalkEndsAtReal(fs, at, comps[1..], left);
      case ParentDir => WalkEndsAtReal(fs, Up(at), comps[1..], left);
      case Normal(n) =>
        var child := at + [n];
        match fs[child]
        case Link(t) =>
          WalkEndsAtReal(fs, if t.absolute then [] else at, t.comps + comps[1..], left - 1);
        case _ => WalkEndsAtReal(fs, child, comps[1..], left);
    }
  }

  /** A real place is found by its own names, through no link. */
  lemma {:induction false} RealIsCanonical(fs: Fs, l: Loc, left: nat)
    requires WellFormed(fs) && l in fs && !fs[l].Link?
    ensures Walk(fs, [], Names(l), left) == At(l, left)
    decreases |l|
  {
    if l != [] {
      RealIsCanonical(fs, Up(l), left);
      assert Names(l) == Names(Up(l)) + [Normal(l[|l| - 1])];
      WalkAppend(fs, [], Names(Up(l)), [Normal(l[|l| - 1])], left);
      assert Up(l) + [l[|l| - 1]] == l;
      assert [Normal(l[|l| - 1])][1..] == [];
    }
  }

  // -------------------------------------------------------- paths that already exist

  /** `canonicalize` is idempotent on what it returns. */
  lemma CanonicalIsReal(fs: Fs, cwd: Loc, p: Path)
    requires WellFormed(fs) && IsDir(fs, cwd) && Canonicalize(fs, cwd, p).Some?
    ensures var l := Canonicalize(fs, cwd, p).value;
            l in fs && !fs[l].Link? && Canonicalize(fs, cwd, Spelled(l)) == Some(l)
  {
    WalkEndsAtReal(fs, if p.absolute then [] else cwd, p.comps, MAX_LINKS);
    RealIsCanonical(fs, Canonicalize(fs, cwd, p).value, MAX_LINKS);
  }

  /** An existing path is rewritten to its canonical spelling, and that one to itself. */
  lemma ExistingResolves(fs: Fs, cwd: Loc, p: Path)
    requires WellFormed(fs) && IsDir(fs, cwd) && Canonicalize(fs, cwd, p).Some? && Named(p)
    ensures var q := Spelled(Canonicalize(fs, cwd, p).value);
            Resolve(fs, cwd, p) == q && Resolve(fs, cwd, q) == q
  {
    CanonicalIsReal(fs, cwd, p);
    assert Prefix(p, |p.comps|) == p;
    var q := Spelled(Canonicalize(fs, cwd, p).value);
    assert Prefix(q, |q.comps|) == q;
  }

  /** Not the empty relative spelling, which names nothing. */
  predicate Named(p: Path) { p.absolute || p.comps != [] }

  lemma ExistingIdentity(fs: Fs, cwd: Loc, p: Path, passes: nat)
    requires WellFormed(fs) && IsDir(fs, cwd) && Canonicalize(fs, cwd, p).Some? && Named(p) && passes >= 2
    ensures Identity(fs, cwd, p, passes) == Spelled(Canonicalize(fs, cwd, p).value)
  {
    ExistingResolves(fs, cwd, p);
    assert Identity(fs, cwd, Resolve(fs, cwd, p), passes - 1) == Resolve(fs, cwd, p);
  }

  /** For existing paths the verdict is exactly inequality of the canonical places. */
  lemma DifferentIffPlacesDiffer(fs: Fs, cwd: Loc, a: Path, b: Path)
    requires WellFormed(fs) && IsDir(fs, cwd) && Named(a) && Named(b)
    requires Canonicalize(fs, cwd, a).Some? && Canonicalize(fs, cwd, b).Some?
    ensures NamesADifferentFile(fs, cwd, a, b) <==> Canonicalize(fs, cwd, a) != Canonicalize(fs, cwd, b)
  {
    ExistingIdentity(fs, cwd, a, RESOLVE_PASSES);
    ExistingIdentity(fs, cwd, b, RESOLVE_PASSES);
    var x, y := Canonicalize(fs, cwd, a).value, Canonicalize(fs, cwd, b).value;
    if Names(x) == Names(y) {
      assert |x| == |Names(x)| == |Names(y)| == |y|;
      assert forall i :: 0 <= i < |x| ==> Names(x)[i].name == x[i] && Names(y)[i].name == y[i];
      assert x == y;
    }
  }
}
