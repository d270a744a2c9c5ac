/**
  How many passes of `resolve_once` a path needs, and the verdict on paths that do not
  exist yet: two passes settle every path that the limit on links does not cut off.
 */
module ConfigPathsPasses {
  import opened Basics
  import opened ConfigPaths
  import opened ConfigPathsLater
  import opened ConfigPathsForecast

  // -------------------------------------------------------------- rewriting a place

  /** How many names of a place resolve. */
  function Depth(fs: Fs, l: Loc): (k: nat)
    ensures k <= |l| && Reach(fs, l[..k]).At?
    ensures forall j :: k < j <= |l| ==> Reach(fs, l[..j]).Failed?
    decreases |l|
  {
    assert l[..|l|] == l;
    if Reach(fs, l).At? then |l|
    else
      var k := Depth(fs, Up(l));
      assert forall j :: 0 <= j <= |Up(l)| ==> Up(l)[..j] == l[..j];
      k
  }

  /** The front that exists, made canonical, and the rest as it is. */
  function Rewrite(fs: Fs, l: Loc): Loc {
    Reach(fs, l[..Depth(fs, l)]).loc + l[Depth(fs, l)..]
  }

  lemma {:induction false} FoldNames(base: Loc, rest: Loc)
    ensures Fold(base, Names(rest)) == base + rest
    decreases |rest|
  {
    if rest != [] {
      assert Names(rest)[1..] == Names(rest[1..]);
      FoldNames(base + [rest[0]], rest[1..]);
      assert base + [rest[0]] + rest[1..] == base + rest;
    } else {
      assert base + rest == base;
    }
  }

  /** `resolve_once` on a spelled place. */
  lemma ResolveSpelled(fs: Fs, cwd: Loc, l: Loc)
    ensures Resolve(fs, cwd, Spelled(l)) == Spelled(Rewrite(fs, l))
  {
    var q, k := Spelled(l), Depth(fs, l);
    forall j | 0 <= j <= |l|
      ensures Prefix(q, j) == Spelled(l[..j])
      ensures Canonicalize(fs, cwd, Prefix(q, j)).Some? <==> Reach(fs, l[..j]).At?
    {
      assert Names(l)[..j] == Names(l[..j]);
    }
    assert Prefix(q, k) == Spelled(l[..k]);
    assert Deepest(fs, cwd, q, |l|) == Some(k);
    assert Names(l)[k..] == Names(l[k..]);
    FoldNames(Reach(fs, l[..k]).loc, l[k..]);
  }

  lemma SpelledInjective(x: Loc, y: Loc)
    requires Spelled(x) == Spelled(y)
    ensures x == y
  {
    assert |x| == |Names(x)| == |Names(y)| == |y|;
    forall i | 0 <= i < |x|
      ensures x[i] == y[i]
    {
      assert Names(x)[i] == Normal(x[i]) && Names(y)[i] == Normal(y[i]);
    }
  }

  /** The existing front is reached through no link. */
  predicate Direct(fs: Fs, l: Loc) {
    Reach(fs, l[..Depth(fs, l)]).loc == l[..Depth(fs, l)]
  }

  /** A place is left as it is exactly if its existing front passes no link. */
  lemma RewriteFixedIff(fs: Fs, l: Loc)
    ensures Rewrite(fs, l) == l <==> Direct(fs, l)
  {
    var k := Depth(fs, l);
    var c := Reach(fs, l[..k]).loc;
    assert l[..k] + l[k..] == l;
    if Rewrite(fs, l) == l {
      assert |c| == k;
      assert Rewrite(fs, l)[..k] == c;
    }
  }

  // ---------------------------------------------------------------- the second pass

  /** The first name that does not resolve does not resolve with a fresh limit on links either. */
  predicate Stops(fs: Fs, l: Loc) {
    var k := Depth(fs, l);
    k == |l| || Walk(fs, Reach(fs, l[..k]).loc, [Normal(l[k])], MAX_LINKS).Failed?
  }

  /** What follows the existing front of a rewritten place. */
  lemma RewrittenReach(fs: Fs, l: Loc, j: nat)
    requires WellFormed(fs) && Depth(fs, l) < |l|
    requires var c := Reach(fs, l[..Depth(fs, l)]).loc; |c| < j <= |Rewrite(fs, l)|
    ensures var k := Depth(fs, l);
            var c := Reach(fs, l[..k]).loc;
            && Reach(fs, c) == At(c, MAX_LINKS)
            && (Walk(fs, c, [Normal(l[k])], MAX_LINKS).Failed? ==> Reach(fs, Rewrite(fs, l)[..j]).Failed?)
            && (j == |c| + 1 ==> Reach(fs, Rewrite(fs, l)[..j]) == Walk(fs, c, [Normal(l[k])], MAX_LINKS))
  {
    var k := Depth(fs, l);
    var c := Reach(fs, l[..k]).loc;
    WalkEndsAtReal(fs, [], Names(l[..k]), MAX_LINKS);
    RealIsCanonical(fs, c, MAX_LINKS);
    var l2 := Rewrite(fs, l);
    assert l2[..|c| + 1] == c + [l[k]];
    ReachStep(fs, c, l[k]);
    assert l2[..j][..|c| + 1] == l2[..|c| + 1];
    if Reach(fs, l2[..|c| + 1]).Failed? { ReachPrefix(fs, l2[..j], |c| + 1); }
  }

  /** What does not resolve does not resolve with more names after it. */
  lemma ReachPrefix(fs: Fs, l: Loc, j: nat)
    requires j <= |l| && Reach(fs, l[..j]).Failed?
    ensures Reach(fs, l).Failed?
  {
    assert Names(l) == Names(l[..j]) + Names(l[j..]);
    WalkAppend(fs, [], Names(l[..j]), Names(l[j..]), MAX_LINKS);
  }

  /** The second rewrite changes nothing exactly if the first one stopped where no fresh limit helps. */
  lemma RewriteSettlesIff(fs: Fs, l: Loc)
    requires WellFormed(fs)
    ensures Rewrite(fs, Rewrite(fs, l)) == Rewrite(fs, l) <==> Stops(fs, l)
  {
    var k := Depth(fs, l);
    var c, l2 := Reach(fs, l[..k]).loc, Rewrite(fs, l);
    WalkEndsAtReal(fs, [], Names(l[..k]), MAX_LINKS);
    RealIsCanonical(fs, c, MAX_LINKS);
    assert l2[..|c|] == c;
    if Stops(fs, l) {
      if |c| < |l2| {
        forall j | |c| < j <= |l2|
          ensures Reach(fs, l2[..j]).Failed?
        {
          RewrittenReach(fs, l, j);
        }
      }
      assert Depth(fs, l2) == |c|;
      RewriteFixedIff(fs, l2);
    } else {
      RewrittenReach(fs, l, |c| + 1);
      NextIsLink(fs, l);
      assert Depth(fs, l2) >= |c| + 1;
      RewriteFixedIff(fs, l2);
      if Direct(fs, l2) {
        LinkIsNoPlace(fs, l2, Depth(fs, l2), |c| + 1);
      }
    }
  }

  lemma OneNameAnyLimit(fs: Fs, d: Loc, n: string, left: nat, more: nat)
    requires !IsLink(fs, d + [n])
    ensures Walk(fs, d, [Normal(n)], left).At? <==> Walk(fs, d, [Normal(n)], more).At?
  {
    OneName(fs, d, n, left);
    OneName(fs, d, n, more);
  }

  /** What resolves with a fresh limit and not without is a link. */
  lemma NextIsLink(fs: Fs, l: Loc)
    requires WellFormed(fs) && !Stops(fs, l)
    ensures var c := Reach(fs, l[..Depth(fs, l)]).loc; IsLink(fs, c + [l[Depth(fs, l)]])
    ensures var c := Reach(fs, l[..Depth(fs, l)]).loc; Rewrite(fs, l)[..|c| + 1] == c + [l[Depth(fs, l)]]
  {
    var k := Depth(fs, l);
    var at := Reach(fs, l[..k]);
    assert l[..k + 1] == l[..k] + [l[k]];
    ReachStep(fs, l[..k], l[k]);
    if !IsLink(fs, at.loc + [l[k]]) {
      OneNameAnyLimit(fs, at.loc, l[k], at.left, MAX_LINKS);
    }
  }

  /** A place a walk ends at has no link among its names. */
  lemma LinkIsNoPlace(fs: Fs, l: Loc, k: nat, j: nat)
    requires WellFormed(fs) && j <= k <= |l| && Reach(fs, l[..k]).At? && Reach(fs, l[..k]).loc == l[..k]
    ensures !IsLink(fs, l[..j])
  {
    WalkEndsAtReal(fs, [], Names(l[..k]), MAX_LINKS);
    AboveIsDir(fs, l, k, j);
  }

  lemma {:induction false} AboveIsDir(fs: Fs, l: Loc, k: nat, j: nat)
    requires WellFormed(fs) && j <= k <= |l| && l[..k] in fs && !fs[l[..k]].Link?
    ensures l[..j] in fs && !fs[l[..j]].Link?
    decreases k
  {
    if j < k {
      assert Up(l[..k]) == l[..k - 1];
      AboveIsDir(fs, l, k - 1, j);
    }
  }

  // -------------------------------------------------------------------- whole paths

  /** Where one pass puts a path; a relative path without an existing first name stays as spelled. */
  function FirstPlace(fs: Fs, cwd: Loc, p: Path): Option<Loc> {
    match Deepest(fs, cwd, p, |p.comps|)
    case None => None
    case Some(k) => Some(Fold(Canonicalize(fs, cwd, Prefix(p, k)).value, p.comps[k..]))
  }

  /** Kernel resolution with a larger limit on links. */
  function ReachFurther(fs: Fs, l: Loc, more: nat): Walked { Walk(fs, [], Names(l), MAX_LINKS + more) }

  /** Resolving more links than the limit allows would reach no further. */
  ghost predicate LimitIsIdle(fs: Fs, l: Loc) {
    forall k: nat, more: nat :: k <= |l| && ReachFurther(fs, l[..k], more).At? ==> Reach(fs, l[..k]).At?
  }

  /** A fresh limit at the first unresolved name is as good as a larger one from the start. */
  lemma FreshIsMore(fs: Fs, l: Loc) returns (more: nat)
    requires WellFormed(fs) && !Stops(fs, l)
    ensures ReachFurther(fs, l[..Depth(fs, l) + 1], more).At?
  {
    var k := Depth(fs, l);
    var at := Reach(fs, l[..k]);
    LinksOnlySpent(fs, [], Names(l[..k]), MAX_LINKS);
    more := MAX_LINKS - at.left;
    WalkLater(fs, fs, [], Names(l[..k]), MAX_LINKS, more);
    assert Names(l[..k + 1]) == Names(l[..k]) + [Normal(l[k])];
    WalkAppend(fs, [], Names(l[..k]), [Normal(l[k])], MAX_LINKS + more);
  }

  lemma IdleStops(fs: Fs, l: Loc)
    requires WellFormed(fs) && LimitIsIdle(fs, l)
    ensures Stops(fs, l)
  {
    if !Stops(fs, l) {
      var more := FreshIsMore(fs, l);
    }
  }

  /** One pass is enough exactly if what it leads to passes no link on its existing front. */
  lemma OnePassIff(fs: Fs, cwd: Loc, p: Path)
    requires WellFormed(fs)
    ensures var q := Resolve(fs, cwd, p);
            Resolve(fs, cwd, q) == q <==>
            FirstPlace(fs, cwd, p).None? || Direct(fs, FirstPlace(fs, cwd, p).value)
  {
    var place := FirstPlace(fs, cwd, p);
    if place.Some? {
      ResolveSpelled(fs, cwd, place.value);
      RewriteFixedIff(fs, place.value);
      if Spelled(Rewrite(fs, place.value)) == Spelled(place.value) {
        SpelledInjective(Rewrite(fs, place.value), place.value);
      }
    }
  }

  /** Two are enough exactly if the name at which the second stopped stays unresolved with a fresh limit. */
  lemma TwoPassesIff(fs: Fs, cwd: Loc, p: Path)
    requires WellFormed(fs)
    ensures var q := Resolve(fs, cwd, Resolve(fs, cwd, p));
            Resolve(fs, cwd, q) == q <==>
            FirstPlace(fs, cwd, p).None? || Stops(fs, FirstPlace(fs, cwd, p).value)
  {
    var place := FirstPlace(fs, cwd, p);
    if place.Some? {
      var l := place.value;
      ResolveSpelled(fs, cwd, l);
      ResolveSpelled(fs, cwd, Rewrite(fs, l));
      RewriteSettlesIff(fs, l);
      if Spelled(Rewrite(fs, Rewrite(fs, l))) == Spelled(Rewrite(fs, l)) {
        SpelledInjective(Rewrite(fs, Rewrite(fs, l)), Rewrite(fs, l));
      }
    }
  }

  lemma {:induction false} FixedStays(fs: Fs, cwd: Loc, p: Path, passes: nat)
    requires Resolve(fs, cwd, p) == p
    ensures Identity(fs, cwd, p, passes) == p
  {
  }

  /** Short of the limit on links the identity is the second rewrite, and a fixpoint. */
  lemma IdentityIsFixpoint(fs: Fs, cwd: Loc, p: Path)
    requires WellFormed(fs)
    requires FirstPlace(fs, cwd, p).Some? ==> LimitIsIdle(fs, FirstPlace(fs, cwd, p).value)
    ensures var q := Identity(fs, cwd, p, RESOLVE_PASSES);
            q == Resolve(fs, cwd, Resolve(fs, cwd, p)) && Resolve(fs, cwd, q) == q
  {
    if FirstPlace(fs, cwd, p).Some? { IdleStops(fs, FirstPlace(fs, cwd, p).value); }
    StopsIsFixpoint(fs, cwd, p);
  }

  lemma StopsIsFixpoint(fs: Fs, cwd: Loc, p: Path)
    requires WellFormed(fs)
    requires FirstPlace(fs, cwd, p).Some? ==> Stops(fs, FirstPlace(fs, cwd, p).value)
    ensures var q := Identity(fs, cwd, p, RESOLVE_PASSES);
            q == Resolve(fs, cwd, Resolve(fs, cwd, p)) && Resolve(fs, cwd, q) == q
  {
    var once := Resolve(fs, cwd, p);
    var twice := Resolve(fs, cwd, once);
    TwoPassesIff(fs, cwd, p);
    FixedStays(fs, cwd, twice, RESOLVE_PASSES - 2);
    assert Identity(fs, cwd, once, RESOLVE_PASSES - 1) == twice;
  }

  // -------------------------------------------------- the verdict on what does not exist yet

  /** The first name of a place that does not resolve is a link: it dangles, or loops, or passes the limit. */
  predicate Dangles(fs: Fs, l: Loc) {
    var k := Depth(fs, l);
    k < |l| && IsLink(fs, Reach(fs, l[..k]).loc + [l[k]])
  }

  /** No name on the way to `l` is a link. */
  predicate Plain(fs: Fs, l: Loc) {
    forall j :: 0 <= j <= |l| ==> !IsLink(fs, l[..j])
  }

  lemma PlainMore(fs: Fs, l: Loc, n: string)
    requires Plain(fs, l) && !IsLink(fs, l + [n])
    ensures Plain(fs, l + [n])
  {
    forall j | 0 <= j <= |l| + 1
      ensures !IsLink(fs, (l + [n])[..j])
    {
      if j <= |l| { assert (l + [n])[..j] == l[..j]; } else { assert (l + [n])[..j] == l + [n]; }
    }
  }

  /** Names that meet no link are foreseen to lead where they say. */
  lemma {:induction false} PlainNamesForesee(fs: Fs, at: Loc, rest: Loc, left: nat)
    requires Plain(fs, at + rest) && Foresee(fs, at, Names(rest), left).Ends?
    ensures Foresee(fs, at, Names(rest), left).loc == at + rest
    decreases |rest|
  {
    if rest == [] {
      assert at + rest == at;
    } else {
      var child := at + [rest[0]];
      assert (at + rest)[..|child|] == child && child + rest[1..] == at + rest;
      assert Names(rest)[1..] == Names(rest[1..]);
      PlainNamesForesee(fs, child, rest[1..], left);
    }
  }

  /** No walk is foreseen to end at or below a link. */
  lemma {:induction false} ForeseenIsPlain(fs: Fs, at: Loc, comps: seq<Component>, left: nat)
    requires WellFormed(fs) && Plain(fs, at) && Foresee(fs, at, comps, left).Ends?
    ensures Plain(fs, Foresee(fs, at, comps, left).loc)
    decreases left, |comps|
  {
    if comps != [] {
      match comps[0]
      case CurDir => ForeseenIsPlain(fs, at, comps[1..], left);
      case ParentDir =>
        assert forall j :: 0 <= j <= |Up(at)| ==> Up(at)[..j] == at[..j];
        ForeseenIsPlain(fs, Up(at), comps[1..], left);
      case Normal(n) =>
        if IsLink(fs, at + [n]) {
          var t := fs[at + [n]].target;
          ForeseenIsPlain(fs, if t.absolute then [] else at, t.comps + comps[1..], left - 1);
        } else {
          PlainMore(fs, at, n);
          ForeseenIsPlain(fs, at + [n], comps[1..], left);
        }
    }
  }

  lemma RealIsPlain(fs: Fs, l: Loc)
    requires WellFormed(fs) && l in fs && !fs[l].Link?
    ensures Plain(fs, l)
  {
    assert l[..|l|] == l;
    forall j | 0 <= j <= |l|
      ensures !IsLink(fs, l[..j])
    {
      AboveIsDir(fs, l, |l|, j);
    }
  }

  /** A rewritten place meets a link exactly if the place it came from dangles. */
  lemma RewrittenIsPlain(fs: Fs, l: Loc)
    requires WellFormed(fs)
    ensures Plain(fs, Rewrite(fs, l)) <==> !Dangles(fs, l)
  {
    var k := Depth(fs, l);
    var at := Reach(fs, l[..k]);
    var c, l2 := at.loc, Rewrite(fs, l);
    WalkEndsAtReal(fs, [], Names(l[..k]), MAX_LINKS);
    RealIsPlain(fs, c);
    if k == |l| {
      assert l2 == c;
    } else {
      assert l2[..|c| + 1] == c + [l[k]];
      if !Dangles(fs, l) {
        assert l[..k + 1] == l[..k] + [l[k]];
        ReachStep(fs, l[..k], l[k]);
        OneName(fs, c, l[k], at.left);
        PlainMore(fs, c, l[k]);
        NothingUnder(fs, c, l[k]);
        MissingIsPlain(fs, l2, |c| + 1);
      }
    }
  }

  lemma NothingUnder(fs: Fs, c: Loc, n: string)
    requires WellFormed(fs) && !(IsDir(fs, c) && c + [n] in fs)
    ensures c + [n] !in fs
  {
    assert Up(c + [n]) == c;
  }

  /** Below a place that is not there yet is nothing. */
  lemma {:induction false} MissingIsPlain(fs: Fs, l: Loc, k: nat)
    requires WellFormed(fs) && k <= |l| && l[..k] !in fs && Plain(fs, l[..k])
    ensures Plain(fs, l)
    decreases |l| - k
  {
    if k == |l| {
      assert l[..k] == l;
    } else {
      assert l[..k + 1] == l[..k] + [l[k]];
      NothingBelow(fs, l[..k], l[k]);
      PlainMore(fs, l[..k], l[k]);
      MissingIsPlain(fs, l, k + 1);
    }
  }

  /** A path that will name something, whose tail pops no link and which two passes settle. */
  ghost predicate Foreseeable(fs: Fs, cwd: Loc, p: Path) {
    && WellFormed(fs) && IsDir(fs, cwd) && Outlook(fs, cwd, p).Ends? && TailPopsNoLink(fs, cwd, p)
    && FirstPlace(fs, cwd, p).Some? && Stops(fs, FirstPlace(fs, cwd, p).value)
  }

  /** A pass ends where the path is foreseen to. */
  lemma OutlookOfPlace(fs: Fs, cwd: Loc, p: Path)
    requires Foreseeable(fs, cwd, p)
    ensures var l := FirstPlace(fs, cwd, p).value;
            && Outlook(fs, cwd, Spelled(Rewrite(fs, l))).Ends?
            && Outlook(fs, cwd, Spelled(Rewrite(fs, l))).loc == Outlook(fs, cwd, p).loc
  {
    var l := FirstPlace(fs, cwd, p).value;
    var q := Spelled(l);
    ResolveStandsForIff(fs, cwd, p);
    ResolveSpelled(fs, cwd, l);
    var found := Deepest(fs, cwd, q, |q.comps|);
    if found.Some? {
      NamesPopNothing(fs, Canonicalize(fs, cwd, Prefix(q, found.value)).value, q.comps[found.value..]);
    }
    ResolveStandsForIff(fs, cwd, q);
  }

  /** Where the identity of a path gets stuck at a link that does not resolve, if it does. */
  function StuckAt(fs: Fs, cwd: Loc, p: Path): Option<Loc> {
    match FirstPlace(fs, cwd, p)
    case None => None
    case Some(l) => if Dangles(fs, l) then Some(Rewrite(fs, l)) else None
  }

  /** The identity is the spelling of the place foreseen, unless a link that does not resolve is in the way. */
  lemma IdentityIsForeseenIff(fs: Fs, cwd: Loc, p: Path)
    requires Foreseeable(fs, cwd, p)
    ensures var q := Identity(fs, cwd, p, RESOLVE_PASSES);
            && (q == Spelled(Outlook(fs, cwd, p).loc) <==> StuckAt(fs, cwd, p).None?)
            && (StuckAt(fs, cwd, p).Some? ==> q == Spelled(StuckAt(fs, cwd, p).value))
  {
    var l := FirstPlace(fs, cwd, p).value;
    var l2, end := Rewrite(fs, l), Outlook(fs, cwd, p).loc;
    StopsIsFixpoint(fs, cwd, p);
    ResolveSpelled(fs, cwd, l);
    OutlookOfPlace(fs, cwd, p);
    RewrittenIsPlain(fs, l);
    assert [] + l2 == l2;
    if Dangles(fs, l) {
      ForeseenIsPlain(fs, [], Names(l2), MAX_LINKS);
      if Spelled(l2) == Spelled(end) { SpelledInjective(l2, end); }
    } else {
      PlainNamesForesee(fs, [], l2, MAX_LINKS);
    }
  }

  /**
    Of two paths foreseen to end at the same place, existing or not, the verdict is "same
    file" exactly if they get stuck at the same unresolved link, or neither does.
   */
  lemma SameVerdictIff(fs: Fs, cwd: Loc, a: Path, b: Path)
    requires Foreseeable(fs, cwd, a) && Foreseeable(fs, cwd, b)
    requires Outlook(fs, cwd, a).loc == Outlook(fs, cwd, b).loc
    ensures !NamesADifferentFile(fs, cwd, a, b) <==> StuckAt(fs, cwd, a) == StuckAt(fs, cwd, b)
  {
    IdentityIsForeseenIff(fs, cwd, a);
    IdentityIsForeseenIff(fs, cwd, b);
    var x, y := StuckAt(fs, cwd, a), StuckAt(fs, cwd, b);
    if x.Some? && y.Some? && Spelled(x.value) == Spelled(y.value) { SpelledInjective(x.value, y.value); }
  }

  /** With no such link in the way the verdict is exactly equality of the places foreseen. */
  lemma VerdictIsForeseen(fs: Fs, cwd: Loc, a: Path, b: Path)
    requires Foreseeable(fs, cwd, a) && Foreseeable(fs, cwd, b)
    requires StuckAt(fs, cwd, a).None? && StuckAt(fs, cwd, b).None?
    ensures NamesADifferentFile(fs, cwd, a, b) <==> Outlook(fs, cwd, a).loc != Outlook(fs, cwd, b).loc
  {
    IdentityIsForeseenIff(fs, cwd, a);
    IdentityIsForeseenIff(fs, cwd, b);
    var x, y := Outlook(fs, cwd, a).loc, Outlook(fs, cwd, b).loc;
    if Spelled(x) == Spelled(y) { SpelledInjective(x, y); }
  }

  // ------------------------------------------------------------------- two filesystems

  /** `/etc/facelock` is a link to the existing `/opt`. */
  function LinkedFs(): Fs {
    map[[] := Dir, ["etc"] := Dir, ["opt"] := Dir, ["etc", "facelock"] := Link(Path(true, [Normal("opt")]))]
  }

  /** `/etc/ghost/../facelock/c` */
  function GhostPath(): Path {
    Path(true, [Normal("etc"), Normal("ghost"), ParentDir, Normal("facelock"), Normal("c")])
  }

  lemma LinkedIsWellFormed()
    ensures WellFormed(LinkedFs())
  {
    assert Up(["etc"]) == [] && Up(["opt"]) == [] && Up(["etc", "facelock"]) == ["etc"];
  }

  lemma LinkedReach()
    ensures Reach(LinkedFs(), ["etc"]) == At(["etc"], MAX_LINKS)
    ensures Reach(LinkedFs(), ["opt"]) == At(["opt"], MAX_LINKS)
    ensures Reach(LinkedFs(), ["etc", "facelock"]) == At(["opt"], MAX_LINKS - 1)
  {
    var fs := LinkedFs();
    LinkedIsWellFormed();
    RealIsCanonical(fs, ["etc"], MAX_LINKS);
    RealIsCanonical(fs, ["opt"], MAX_LINKS);
    RealIsCanonical(fs, ["opt"], MAX_LINKS - 1);
    ReachStep(fs, ["etc"], "facelock");
    assert ["etc"] + ["facelock"] == ["etc", "facelock"] && ["etc", "facelock"] in fs;
    assert Names(["opt"]) == [Normal("opt")] && [Normal("facelock")][1..] == [];
    assert [Normal("opt")] + [] == [Normal("opt")];
  }

  /** `/etc/facelock/c` exists up to the link and is rewritten through it. */
  lemma LinkedRewrite()
    ensures Rewrite(LinkedFs(), ["etc", "facelock", "c"]) == ["opt", "c"]
    ensures Rewrite(LinkedFs(), ["opt", "c"]) == ["opt", "c"]
  {
    var fs, l, o := LinkedFs(), ["etc", "facelock", "c"], ["opt", "c"];
    LinkedReach();
    ReachStep(fs, ["etc", "facelock"], "c");
    ReachStep(fs, ["opt"], "c");
    assert ["etc", "facelock"] + ["c"] == l && ["opt"] + ["c"] == o && o !in fs;
    OneName(fs, ["opt"], "c", MAX_LINKS - 1);
    OneName(fs, ["opt"], "c", MAX_LINKS);
    assert l[..3] == l && l[..2] == ["etc", "facelock"] && l[2..] == ["c"];
    assert Depth(fs, l) == 2;
    assert o[..2] == o && o[..1] == ["opt"] && o[1..] == ["c"];
    assert Depth(fs, o) == 1;
  }

  /** Nothing below `/etc/ghost` exists, so the first pass only folds. */
  lemma GhostFirstPlace()
    ensures FirstPlace(LinkedFs(), [], GhostPath()) == Some(["etc", "facelock", "c"])
  {
    var fs, p := LinkedFs(), GhostPath();
    LinkedReach();
    assert Names(["etc"]) == p.comps[..1];
    forall k | 2 <= k <= 5
      ensures Canonicalize(fs, [], Prefix(p, k)).None?
    {
      var back := p.comps[1..k];
      assert p.comps[..k] == p.comps[..1] + back;
      WalkAppend(fs, [], p.comps[..1], back, MAX_LINKS);
      assert back[0] == Normal("ghost") && ["etc"] + ["ghost"] == ["etc", "ghost"] && ["etc", "ghost"] !in fs;
    }
    assert Deepest(fs, [], p, 5) == Some(1);
    PopUndoesPush(["etc"], "ghost", p.comps[1..]);
    assert p.comps[1..][2..] == Names(["facelock", "c"]);
    FoldNames(["etc"], ["facelock", "c"]);
    assert ["etc"] + ["facelock", "c"] == ["etc", "facelock", "c"];
  }

  /** One pass tells `/etc/ghost/../facelock/c` from `/opt/c`; the loop judges them the same file. */
  lemma SecondPassNeeded()
    ensures Identity(LinkedFs(), [], GhostPath(), 1) != Identity(LinkedFs(), [], Spelled(["opt", "c"]), 1)
    ensures !NamesADifferentFile(LinkedFs(), [], GhostPath(), Spelled(["opt", "c"]))
  {
    var fs, l, o := LinkedFs(), ["etc", "facelock", "c"], ["opt", "c"];
    GhostFirstPlace();
    LinkedRewrite();
    ResolveSpelled(fs, [], l);
    ResolveSpelled(fs, [], o);
    assert Resolve(fs, [], GhostPath()) == Spelled(l) != GhostPath();
    FixedStays(fs, [], Spelled(o), RESOLVE_PASSES);
    FixedStays(fs, [], Spelled(o), RESOLVE_PASSES - 2);
    if Spelled(l) == Spelled(o) { SpelledInjective(l, o); }
    assert Identity(fs, [], Spelled(l), RESOLVE_PASSES - 1) == Spelled(o);
  }

  /** `/d` is a link to the directory it is in. */
  function LoopFs(): Fs {
    map[[] := Dir, ["d"] := Link(Path(false, [CurDir]))]
  }

  /** `/d/d/d...` */
  function Ds(n: nat): Loc { seq(n, _ => "d") }

  lemma {:induction false} DsWalk(n: nat, left: nat)
    ensures Walk(LoopFs(), [], Names(Ds(n)), left) == if n <= left then At([], left - n) else Failed
    decreases n
  {
    if n > 0 {
      var fs, rest := LoopFs(), Names(Ds(n - 1));
      assert Names(Ds(n))[1..] == rest && [] + ["d"] == ["d"] && ["d"] in fs;
      if left > 0 {
        DsWalk(n - 1, left - 1);
        assert ([CurDir] + rest)[1..] == rest;
        assert Walk(fs, [], [CurDir] + rest, left - 1) == Walk(fs, [], rest, left - 1);
      }
    }
  }

  /** Each pass resolves as many links as the limit allows. */
  lemma DsRewrite(n: nat)
    ensures Rewrite(LoopFs(), Ds(n)) == Ds(SatSub(n, MAX_LINKS))
  {
    var fs, k := LoopFs(), Min(n, MAX_LINKS);
    forall j | 0 <= j <= n
      ensures Reach(fs, Ds(n)[..j]) == if j <= MAX_LINKS then At([], MAX_LINKS - j) else Failed
    {
      assert Ds(n)[..j] == Ds(j);
      DsWalk(j, MAX_LINKS);
    }
    assert Reach(fs, Ds(n)[..k]).At? && |Ds(n)| == n;
    assert Depth(fs, Ds(n)) == k;
    assert [] + Ds(n)[k..] == Ds(n - k);
  }

  lemma {:induction false} DsIdentity(n: nat, passes: nat)
    ensures Identity(LoopFs(), [], Spelled(Ds(n)), passes) == Spelled(Ds(SatSub(n, MAX_LINKS * passes)))
    decreases passes
  {
    if passes > 0 {
      ResolveSpelled(LoopFs(), [], Ds(n));
      DsRewrite(n);
      var less := SatSub(n, MAX_LINKS);
      DsIdentity(less, passes - 1);
      assert SatSub(less, MAX_LINKS * (passes - 1)) == SatSub(n, MAX_LINKS * passes);
      if Spelled(Ds(less)) == Spelled(Ds(n)) { SpelledInjective(Ds(less), Ds(n)); assert |Ds(less)| == |Ds(n)|; }
    }
  }

  /** Past the limit of every pass together a spelling stays unresolved and counts as different. */
  lemma ManyLinksIff(n: nat)
    ensures NamesADifferentFile(LoopFs(), [], Spelled(Ds(n)), Spelled([])) <==> n > 160
  {
    DsIdentity(n, RESOLVE_PASSES);
    DsIdentity(0, RESOLVE_PASSES);
    assert Ds(0) == [];
    var left := Ds(SatSub(n, MAX_LINKS * RESOLVE_PASSES));
    if Spelled(left) == Spelled([]) { SpelledInjective(left, []); }
  }

  /** `/link`, dangling at `/x/y`, and `/x/y` itself will be one file and are judged different. */
  lemma DanglingIsDifferent()
    ensures var fs := DanglingFs();
            && NamesADifferentFile(fs, [], Spelled(["link"]), Spelled(["x", "y"]))
            && Outlook(fs, [], Spelled(["link"])).Ends? && Outlook(fs, [], Spelled(["x", "y"])).Ends?
            && Outlook(fs, [], Spelled(["link"])).loc == Outlook(fs, [], Spelled(["x", "y"])).loc
  {
    var fs := DanglingFs();
    NothingPastTheLink(Names(["link"]), MAX_LINKS);
    assert ["link"][..1] == ["link"] && ["link"][..0] == [] && ["link"][0..] == ["link"];
    assert Depth(fs, ["link"]) == 0;
    assert [] + ["link"] == ["link"] && Rewrite(fs, ["link"]) == ["link"];
    ResolveSpelled(fs, [], ["link"]);
    FixedStays(fs, [], Spelled(["link"]), RESOLVE_PASSES);
    DanglingTarget();
    DanglingOutlooks();
    if Spelled(["link"]) == Spelled(["x", "y"]) { SpelledInjective(["link"], ["x", "y"]); }
  }

  lemma DanglingOutlooks()
    ensures Outlook(DanglingFs(), [], Spelled(["link"])).Ends? && Outlook(DanglingFs(), [], Spelled(["link"])).loc == ["x", "y"]
    ensures Outlook(DanglingFs(), [], Spelled(["x", "y"])).Ends? && Outlook(DanglingFs(), [], Spelled(["x", "y"])).loc == ["x", "y"]
  {
    var fs, l := DanglingFs(), ["x", "y"];
    var all := Names(l);
    assert all == [Normal("x"), Normal("y")] && all[1..] == [Normal("y")] && all[1..][1..] == [];
    assert [] + ["x"] == ["x"] && ["x"] + ["y"] == l && ["x"] !in fs && [] + ["link"] == ["link"] && ["link"] in fs;
    assert Names(["link"])[1..] == [] && [Normal("x"), Normal("y")] + [] == all;
    assert forall left :: Foresee(fs, ["x"], [Normal("y")], left) == Ends(l, left, {["x"]});
    assert Outlook(fs, [], Spelled(["link"])) == Foresee(fs, [], all, MAX_LINKS - 1);
  }

  lemma DanglingTarget()
    ensures Identity(DanglingFs(), [], Spelled(["x", "y"]), RESOLVE_PASSES) == Spelled(["x", "y"])
  {
    var fs, l := DanglingFs(), ["x", "y"];
    assert [] + ["x"] == ["x"] && ["x"] + ["y"] == l && ["x"] !in fs;
    assert l[..1] == ["x"] && l[..2] == l && l[..0] == [] && l[0..] == l;
    ReachStep(fs, [], "x");
    OneName(fs, [], "x", MAX_LINKS);
    ReachStep(fs, ["x"], "y");
    assert Depth(fs, l) == 0;
    assert [] + l == l;
    ResolveSpelled(fs, [], l);
    FixedStays(fs, [], Spelled(l), RESOLVE_PASSES);
  }
}
