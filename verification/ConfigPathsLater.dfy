/**
  What the path rewrite means once the filesystem has grown: later filesystems add
  plain files and directories and change nothing else.
 */
module ConfigPathsLater {
  import opened Basics
  import opened ConfigPaths

  // --------------------------------------------------------- links in the unresolved tail

  /** Kernel resolution of a place's names from the root. */
  function Reach(fs: Fs, l: Loc): Walked { Walk(fs, [], Names(l), MAX_LINKS) }

  /**
    The last name of `c`, or the first of its names that does not resolve yet, is
    no symbolic link: whatever `c` comes to name later, it is not through a link there.
   */
  predicate Unlinked(fs: Fs, c: Loc)
    requires c != []
    decreases |c|
  {
    match Reach(fs, Up(c))
    case At(d, _) => !IsLink(fs, d + [c[|c| - 1]])
    case Failed => Up(c) != [] && Unlinked(fs, Up(c))
  }

  /** Every `..` of `rest`, folded lexically from `cur`, pops a name that is no link. */
  predicate PopsNoLink(fs: Fs, cur: Loc, rest: seq<Component>)
    decreases |rest|
  {
    rest == [] ||
    match rest[0]
    case Normal(n) => PopsNoLink(fs, cur + [n], rest[1..])
    case CurDir => PopsNoLink(fs, cur, rest[1..])
    case ParentDir => (cur != [] ==> Unlinked(fs, cur)) && PopsNoLink(fs, Up(cur), rest[1..])
  }

  predicate TailPopsNoLink(fs: Fs, cwd: Loc, p: Path) {
    match Deepest(fs, cwd, p, |p.comps|)
    case None => true
    case Some(k) => PopsNoLink(fs, Canonicalize(fs, cwd, Prefix(p, k)).value, p.comps[k..])
  }

  lemma ReachStep(fs: Fs, c: Loc, n: string)
    ensures Reach(fs, c + [n]) ==
            match Reach(fs, c) case Failed => Failed case At(d, k) => Walk(fs, d, [Normal(n)], k)
  {
    assert Names(c + [n]) == Names(c) + [Normal(n)];
    WalkAppend(fs, [], Names(c), [Normal(n)], MAX_LINKS);
  }

  /** One name further from a directory, where there is no link. */
  lemma OneName(fs: Fs, d: Loc, n: string, left: nat)
    requires !IsLink(fs, d + [n])
    ensures Walk(fs, d, [Normal(n)], left) ==
            if IsDir(fs, d) && d + [n] in fs then At(d + [n], left) else Failed
  {
    assert [Normal(n)][1..] == [];
  }

  lemma ReachLater(fs: Fs, later: Fs, c: Loc)
    requires Extends(fs, later) && Reach(fs, c).At?
    ensures Reach(later, c) == Reach(fs, c)
  {
    WalkLater(fs, later, [], Names(c), MAX_LINKS, 0);
  }

  lemma ReachIsReal(fs: Fs, c: Loc)
    requires WellFormed(fs) && Reach(fs, c).At?
    ensures Reach(fs, c).loc in fs
  {
    WalkEndsAtReal(fs, [], Names(c), MAX_LINKS);
  }

  /** A place that is not there yet has nothing under it yet. */
  lemma NothingBelow(fs: Fs, d: Loc, n: string)
    requires WellFormed(fs) && d !in fs
    ensures d + [n] !in fs
  {
    assert Up(d + [n]) == d;
  }

  /** What an unlinked spelling comes to name later is not reached through a link there. */
  lemma {:induction false} UnlinkedLater(fs: Fs, later: Fs, c: Loc, n: string)
    requires Grown(fs, later) && Unlinked(fs, c + [n]) && Reach(later, c).At?
    ensures !IsLink(later, Reach(later, c).loc + [n])
    ensures Reach(fs, c).Failed? ==> Reach(later, c).loc !in fs
    decreases |c|
  {
    assert Up(c + [n]) == c;
    var d := Reach(later, c).loc;
    if Reach(fs, c).At? {
      ReachLater(fs, later, c);
    } else {
      var b, m := Up(c), c[|c| - 1];
      assert b + [m] == c;
      ReachStep(later, b, m);
      ReachStep(fs, b, m);
      UnlinkedLater(fs, later, b, m);
      OneName(later, Reach(later, b).loc, m, Reach(later, b).left);
      MissingBelow(fs, later, b, m);
      NothingBelow(fs, d, n);
    }
  }

  /** The step at which a spelling stops resolving now is a step to a new place later. */
  lemma MissingBelow(fs: Fs, later: Fs, b: Loc, m: string)
    requires Grown(fs, later) && Reach(later, b).At? && Reach(fs, b + [m]).Failed?
    requires !IsLink(later, Reach(later, b).loc + [m]) && IsDir(later, Reach(later, b).loc)
    requires Reach(fs, b).Failed? ==> Reach(later, b).loc !in fs
    ensures Reach(later, b).loc + [m] !in fs
  {
    ReachStep(fs, b, m);
    var e := Reach(later, b).loc;
    if Reach(fs, b).At? {
      ReachLater(fs, later, b);
      ReachIsReal(fs, b);
      assert fs[e] == later[e];
      if e + [m] in fs {
        assert later[e + [m]] == fs[e + [m]];
        OneName(fs, e, m, Reach(fs, b).left);
      }
    } else {
      NothingBelow(fs, e, m);
    }
  }

  // ------------------------------------------------------------- meaning is preserved

  /** A walk with more links to spare ends at the same place. */
  lemma MoreLinks(fs: Fs, at: Loc, comps: seq<Component>, left: nat, more: nat)
    requires left <= more && Walk(fs, at, comps, left).At?
    ensures var w := Walk(fs, at, comps, left);
            var v := Walk(fs, at, comps, more); v.At? && v.loc == w.loc && w.left <= v.left
  {
    WalkLater(fs, fs, at, comps, left, more - left);
  }

  /** Folding lexically and then walking is walking, when no `..` pops a link. */
  lemma {:induction false} FoldKeepsMeaning(fs: Fs, later: Fs, cur: Loc, rest: seq<Component>, left: nat)
    requires Grown(fs, later) && PopsNoLink(fs, cur, rest)
    requires Reach(later, cur).At? && left <= Reach(later, cur).left
    requires Walk(later, Reach(later, cur).loc, rest, left).At?
    ensures Reach(later, Fold(cur, rest)).At?
    ensures Reach(later, Fold(cur, rest)).loc == Walk(later, Reach(later, cur).loc, rest, left).loc
    decreases |rest|
  {
    if rest != [] {
      var pos, more := Reach(later, cur).loc, Reach(later, cur).left;
      match rest[0]
      case CurDir => FoldKeepsMeaning(fs, later, cur, rest[1..], left);
      case Normal(n) =>
        assert rest == [Normal(n)] + rest[1..];
        WalkAppend(later, pos, [Normal(n)], rest[1..], left);
        MoreLinks(later, pos, [Normal(n)], left, more);
        ReachStep(later, cur, n);
        FoldKeepsMeaning(fs, later, cur + [n], rest[1..], Walk(later, pos, [Normal(n)], left).left);
      case ParentDir =>
        PopIsParent(fs, later, cur);
        FoldKeepsMeaning(fs, later, Up(cur), rest[1..], left);
    }
  }

  /** Popping a name that is no link leads where `..` leads. */
  lemma PopIsParent(fs: Fs, later: Fs, cur: Loc)
    requires Grown(fs, later) && Reach(later, cur).At? && (cur != [] ==> Unlinked(fs, cur))
    ensures Reach(later, Up(cur)) == At(Up(Reach(later, cur).loc), Reach(later, cur).left)
  {
    if cur != [] {
      var b, m := Up(cur), cur[|cur| - 1];
      assert b + [m] == cur;
      ReachStep(later, b, m);
      UnlinkedLater(fs, later, b, m);
      PlainStepUp(later, Reach(later, b).loc, m, Reach(later, b).left);
    }
  }

  lemma PlainStepUp(fs: Fs, d: Loc, n: string, left: nat)
    requires !IsLink(fs, d + [n]) && Walk(fs, d, [Normal(n)], left).At?
    ensures Up(Walk(fs, d, [Normal(n)], left).loc) == d && Walk(fs, d, [Normal(n)], left).left == left
  {
    OneName(fs, d, n, left);
    assert Up(d + [n]) == d;
  }

  /** Resolving a front now and folding the rest onto it, against walking both later. */
  lemma SplitKeepsMeaning(fs: Fs, later: Fs, start: Loc, front: seq<Component>, back: seq<Component>)
    requires Grown(fs, later) && IsDir(fs, start)
    requires Walk(fs, start, front, MAX_LINKS).At? && Walk(later, start, front + back, MAX_LINKS).At?
    requires PopsNoLink(fs, Walk(fs, start, front, MAX_LINKS).loc, back)
    ensures var end := Reach(later, Fold(Walk(fs, start, front, MAX_LINKS).loc, back));
            end.At? && end.loc == Walk(later, start, front + back, MAX_LINKS).loc
  {
    var base := Walk(fs, start, front, MAX_LINKS).loc;
    WalkLater(fs, later, start, front, MAX_LINKS, 0);
    WalkEndsAtReal(fs, start, front, MAX_LINKS);
    RealIsCanonical(later, base, MAX_LINKS);
    WalkAppend(later, start, front, back, MAX_LINKS);
    LinksOnlySpent(later, start, front, MAX_LINKS);
    FoldKeepsMeaning(fs, later, base, back, Walk(later, start, front, MAX_LINKS).left);
  }

  /** `resolve_once` names in every later filesystem what the path itself names there. */
  lemma ResolveKeepsMeaning(fs: Fs, later: Fs, cwd: Loc, p: Path)
    requires Grown(fs, later) && IsDir(fs, cwd)
    requires TailPopsNoLink(fs, cwd, p) && Canonicalize(later, cwd, p).Some?
    ensures Canonicalize(later, cwd, Resolve(fs, cwd, p)) == Canonicalize(later, cwd, p)
  {
    var found := Deepest(fs, cwd, p, |p.comps|);
    if found.Some? {
      var k := found.value;
      assert p.comps[..k] + p.comps[k..] == p.comps;
      SplitKeepsMeaning(fs, later, if p.absolute then [] else cwd, p.comps[..k], p.comps[k..]);
    }
  }

  lemma {:induction false} LinksOnlySpent(fs: Fs, at: Loc, comps: seq<Component>, left: nat)
    requires Walk(fs, at, comps, left).At?
    ensures Walk(fs, at, comps, left).left <= left
    decreases left, |comps|
  {
    if comps != [] {
      match comps[0]
      case CurDir => LinksOnlySpent(fs, at, comps[1..], left);
      case ParentDir => LinksOnlySpent(fs, Up(at), comps[1..], left);
      case Normal(n) =>
        match fs[at + [n]]
        case Link(t) => LinksOnlySpent(fs, if t.absolute then [] else at, t.comps + comps[1..], left - 1);
        case _ => LinksOnlySpent(fs, at + [n], comps[1..], left);
    }
  }

  /** A spelling without `..` folds to itself and pops nothing. */
  lemma {:induction false} NamesPopNothing(fs: Fs, cur: Loc, rest: seq<Component>)
    requires forall c :: c in rest ==> c.Normal?
    ensures PopsNoLink(fs, cur, rest)
    decreases |rest|
  {
    if rest != [] {
      assert rest[0] in rest;
      NamesPopNothing(fs, cur + [rest[0].name], rest[1..]);
    }
  }

  /** The identity used for comparison names in every later filesystem what the path names there. */
  lemma {:induction false} IdentityKeepsMeaning(fs: Fs, later: Fs, cwd: Loc, p: Path, passes: nat)
    requires Grown(fs, later) && IsDir(fs, cwd)
    requires TailPopsNoLink(fs, cwd, p) && Canonicalize(later, cwd, p).Some?
    ensures Canonicalize(later, cwd, Identity(fs, cwd, p, passes)) == Canonicalize(later, cwd, p)
    decreases passes
  {
    if passes > 0 && Resolve(fs, cwd, p) != p {
      ResolveKeepsMeaning(fs, later, cwd, p);
      var q := Resolve(fs, cwd, p);
      var found := Deepest(fs, cwd, q, |q.comps|);
      if found.Some? {
        NamesPopNothing(fs, Canonicalize(fs, cwd, Prefix(q, found.value)).value, q.comps[found.value..]);
      }
      IdentityKeepsMeaning(fs, later, cwd, q, passes - 1);
    }
  }

  /** Two paths judged the same file are the same file whenever both exist. */
  lemma SameVerdictIsSound(fs: Fs, later: Fs, cwd: Loc, a: Path, b: Path)
    requires Grown(fs, later) && IsDir(fs, cwd)
    requires TailPopsNoLink(fs, cwd, a) && TailPopsNoLink(fs, cwd, b)
    requires Canonicalize(later, cwd, a).Some? && Canonicalize(later, cwd, b).Some?
    requires !NamesADifferentFile(fs, cwd, a, b)
    ensures Canonicalize(later, cwd, a) == Canonicalize(later, cwd, b)
  {
    IdentityKeepsMeaning(fs, later, cwd, a, RESOLVE_PASSES);
    IdentityKeepsMeaning(fs, later, cwd, b, RESOLVE_PASSES);
  }

  // --------------------------------------------------------------------- failing closed

  /** A relative path without an existing first component stays as spelled... */
  lemma {:induction false} UnresolvedStays(fs: Fs, cwd: Loc, p: Path, passes: nat)
    requires Deepest(fs, cwd, p, |p.comps|).None?
    ensures Identity(fs, cwd, p, passes) == p && !p.absolute
  {
    RootResolves(fs, cwd, p);
  }

  lemma RootResolves(fs: Fs, cwd: Loc, p: Path)
    ensures p.absolute ==> Deepest(fs, cwd, p, |p.comps|).Some?
  {
    if p.absolute { assert Canonicalize(fs, cwd, Prefix(p, 0)) == Some([]); }
  }

  lemma {:induction false} ResolvedIsAbsolute(fs: Fs, cwd: Loc, p: Path, passes: nat)
    requires p.absolute || (Deepest(fs, cwd, p, |p.comps|).Some? && passes > 0)
    ensures Identity(fs, cwd, p, passes).absolute
    decreases passes
  {
    if passes > 0 && Resolve(fs, cwd, p) != p { ResolvedIsAbsolute(fs, cwd, Resolve(fs, cwd, p), passes - 1); }
  }

  /** The first name exists, or the path is absolute. */
  predicate Rooted(fs: Fs, cwd: Loc, p: Path) {
    p.absolute || (p.comps != [] && Canonicalize(fs, cwd, Prefix(p, 1)).Some?)
  }

  /** Some front of a path resolves exactly if its first name does. */
  lemma RootedIff(fs: Fs, cwd: Loc, p: Path)
    ensures Deepest(fs, cwd, p, |p.comps|).Some? <==> Rooted(fs, cwd, p)
  {
    RootResolves(fs, cwd, p);
    if !p.absolute && Deepest(fs, cwd, p, |p.comps|).Some? {
      var k := Deepest(fs, cwd, p, |p.comps|).value;
      assert p.comps[..k] == p.comps[..1] + p.comps[1..k];
      WalkAppend(fs, cwd, p.comps[..1], p.comps[1..k], MAX_LINKS);
    }
  }

  /** ...and so counts as different from every path that resolves at all. */
  lemma UnresolvedIsDifferent(fs: Fs, cwd: Loc, a: Path, b: Path)
    requires !Rooted(fs, cwd, a) && Rooted(fs, cwd, b)
    ensures NamesADifferentFile(fs, cwd, a, b) && Identity(fs, cwd, a, RESOLVE_PASSES) == a
  {
    RootedIff(fs, cwd, a);
    RootedIff(fs, cwd, b);
    UnresolvedStays(fs, cwd, a, RESOLVE_PASSES);
    ResolvedIsAbsolute(fs, cwd, b, RESOLVE_PASSES);
  }
}
