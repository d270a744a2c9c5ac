/**
  Exactly when one path can stand for another in every later filesystem, decided on
  the filesystem as it is, and two paths for which `resolve_once` fails it.
 */
module ConfigPathsForecast {
  import opened Basics
  import opened ConfigPaths
  import opened ConfigPathsLater

  /** Where a path ends once what it is missing exists, and the missing directories it needs. */
  datatype Forecast = Never | Ends(loc: Loc, left: nat, dirs: set<Loc>)

  function Needing(fs: Fs, at: Loc, f: Forecast): Forecast {
    if f.Ends? && at !in fs then f.(dirs := f.dirs + {at}) else f
  }

  /** A walk in which every missing name counts as a directory to come. */
  function Foresee(fs: Fs, at: Loc, comps: seq<Component>, left: nat): Forecast
    decreases left, |comps|
  {
    if comps == [] then Ends(at, left, {})
    else if at in fs && !fs[at].Dir? then Never
    else match comps[0]
      case CurDir => Needing(fs, at, Foresee(fs, at, comps[1..], left))
      case ParentDir => Needing(fs, at, Foresee(fs, Up(at), comps[1..], left))
      case Normal(n) =>
        var child := at + [n];
        if IsLink(fs, child) then
          var t := fs[child].target;
          if left == 0 then Never
          else Needing(fs, at, Foresee(fs, if t.absolute then [] else at, t.comps + comps[1..], left - 1))
        else Needing(fs, at, Foresee(fs, child, comps[1..], left))
  }

  function Outlook(fs: Fs, cwd: Loc, p: Path): Forecast {
    Foresee(fs, if p.absolute then [] else cwd, p.comps, MAX_LINKS)
  }

  predicate Provided(later: Fs, f: Forecast) {
    f.Ends? && f.loc in later && forall d :: d in f.dirs ==> IsDir(later, d)
  }

  /** A walk succeeds exactly when what is foreseen for it is there, and ends as foreseen. */
  predicate Borne(later: Fs, w: Walked, f: Forecast) {
    && (w.At? <==> Provided(later, f))
    && (w.At? ==> w == At(f.loc, f.left))
  }

  lemma BorneFurther(fs: Fs, later: Fs, at: Loc, w: Walked, f: Forecast)
    requires Borne(later, w, f) && IsDir(later, at)
    ensures Borne(later, w, Needing(fs, at, f))
  {
  }

  /** The forecast of a path bears out in every later filesystem. */
  lemma {:induction false} ForeseeExact(fs: Fs, later: Fs, at: Loc, comps: seq<Component>, left: nat)
    requires Grown(fs, later) && at in later && !later[at].Link?
    ensures Borne(later, Walk(later, at, comps, left), Foresee(fs, at, comps, left))
    decreases left, |comps|, 0
  {
    if comps == [] {
    } else if !IsDir(later, at) {
      NeedsDir(fs, at, comps, left);
    } else {
      match comps[0]
      case CurDir =>
        ForeseeExact(fs, later, at, comps[1..], left);
        BorneFurther(fs, later, at, Walk(later, at, comps[1..], left), Foresee(fs, at, comps[1..], left));
      case ParentDir =>
        ForeseeExact(fs, later, Up(at), comps[1..], left);
        BorneFurther(fs, later, at, Walk(later, Up(at), comps[1..], left), Foresee(fs, Up(at), comps[1..], left));
      case Normal(n) =>
        if IsLink(fs, at + [n]) {
          if left > 0 {
            var t := fs[at + [n]].target;
            var start := if t.absolute then [] else at;
            ForeseeExact(fs, later, start, t.comps + comps[1..], left - 1);
            BorneFurther(fs, later, at, Walk(later, start, t.comps + comps[1..], left - 1),
                         Foresee(fs, start, t.comps + comps[1..], left - 1));
          }
        } else {
          ForeseeName(fs, later, at, n, comps[1..], left);
          BorneFurther(fs, later, at, if at + [n] in later then Walk(later, at + [n], comps[1..], left) else Failed,
                       Foresee(fs, at + [n], comps[1..], left));
        }
    }
  }

  lemma {:induction false} ForeseeName(fs: Fs, later: Fs, at: Loc, n: string, rest: seq<Component>, left: nat)
    requires Grown(fs, later) && IsDir(later, at) && !IsLink(fs, at + [n])
    ensures Borne(later, if at + [n] in later then Walk(later, at + [n], rest, left) else Failed,
                  Foresee(fs, at + [n], rest, left))
    decreases left, |rest|, 1
  {
    if at + [n] in later {
      ForeseeExact(fs, later, at + [n], rest, left);
    } else if Foresee(fs, at + [n], rest, left).Ends? {
      MustExist(fs, at + [n], rest, left);
    }
  }

  /** Whatever comes next, the place a step leads to must exist. */
  lemma MustExist(fs: Fs, at: Loc, comps: seq<Component>, left: nat)
    requires at !in fs && Foresee(fs, at, comps, left).Ends?
    ensures at in Foresee(fs, at, comps, left).dirs || at == Foresee(fs, at, comps, left).loc
  {
  }

  lemma NeedsDir(fs: Fs, at: Loc, comps: seq<Component>, left: nat)
    requires comps != []
    ensures Foresee(fs, at, comps, left).Ends? ==> IsDir(fs, at) || at in Foresee(fs, at, comps, left).dirs
  {
  }

  // ------------------------------------------------------------------ the world foreseen

  /** A place that exists, or whose parent is a directory or will be one. */
  predicate Backed(fs: Fs, have: set<Loc>, l: Loc) {
    l in fs || (l != [] && (IsDir(fs, Up(l)) || Up(l) in have))
  }

  predicate AllBacked(fs: Fs, have: set<Loc>) {
    forall d :: d in have ==> d !in fs && Backed(fs, have, d)
  }

  /** What a forecast needs can be created in order, parents first. */
  lemma {:induction false} ForeseeBacked(fs: Fs, at: Loc, comps: seq<Component>, left: nat, have: set<Loc>)
    requires WellFormed(fs) && AllBacked(fs, have) && Backed(fs, have, at)
    requires Foresee(fs, at, comps, left).Ends?
    ensures var f := Foresee(fs, at, comps, left);
            AllBacked(fs, have + f.dirs) && Backed(fs, have + f.dirs, f.loc)
    decreases left, |comps|
  {
    if comps == [] {
      assert have + {} == have;
    } else {
      var more := if at in fs then have else have + {at};
      var next, rest, spare := NextOf(fs, at, comps, left);
      UpBacked(fs, have, at);
      BackedMore(fs, have, more, at);
      BackedMore(fs, have, more, Up(at));
      ForeseeBacked(fs, next, rest, spare, more);
      assert have + Foresee(fs, at, comps, left).dirs == more + Foresee(fs, next, rest, spare).dirs;
    }
  }

  /** The state a walk is foreseen to be in after one step. */
  lemma NextOf(fs: Fs, at: Loc, comps: seq<Component>, left: nat)
    returns (next: Loc, rest: seq<Component>, spare: nat)
    requires WellFormed(fs) && comps != [] && Foresee(fs, at, comps, left).Ends?
    ensures Foresee(fs, at, comps, left) == Needing(fs, at, Foresee(fs, next, rest, spare))
    ensures Foresee(fs, next, rest, spare).Ends?
    ensures spare < left || (spare == left && |rest| < |comps|)
    ensures at in fs ==> IsDir(fs, at)
    ensures next in {[], at, Up(at)} || (next != [] && Up(next) == at)
  {
    match comps[0]
    case CurDir => next, rest, spare := at, comps[1..], left;
    case ParentDir => next, rest, spare := Up(at), comps[1..], left;
    case Normal(n) =>
      var child := at + [n];
      assert Up(child) == at;
      if IsLink(fs, child) {
        var t := fs[child].target;
        next, rest, spare := if t.absolute then [] else at, t.comps + comps[1..], left - 1;
      } else {
        next, rest, spare := child, comps[1..], left;
      }
  }

  lemma UpBacked(fs: Fs, have: set<Loc>, at: Loc)
    requires WellFormed(fs) && AllBacked(fs, have) && Backed(fs, have, at)
    ensures Backed(fs, have, Up(at))
  {
  }

  lemma BackedMore(fs: Fs, have: set<Loc>, more: set<Loc>, l: Loc)
    requires have <= more && Backed(fs, have, l)
    ensures Backed(fs, more, l)
  {
  }

  /** The filesystem in which just what is foreseen has been created. */
  function World(fs: Fs, f: Forecast): Fs
    requires f.Ends?
  {
    map l | l in fs.Keys + f.dirs + {f.loc} :: if l in fs then fs[l] else if l in f.dirs then Dir else File
  }

  lemma WorldIsGrown(fs: Fs, f: Forecast)
    requires WellFormed(fs) && f.Ends? && AllBacked(fs, f.dirs) && Backed(fs, f.dirs, f.loc)
    ensures Grown(fs, World(fs, f)) && Provided(World(fs, f), f)
    ensures forall d :: d !in fs ==> (IsDir(World(fs, f), d) <==> d in f.dirs)
  {
    var w := World(fs, f);
    forall l | l in w && l != []
      ensures Up(l) in w && w[Up(l)].Dir?
    {
      if l !in fs { assert Backed(fs, f.dirs, l); }
    }
  }

  // -------------------------------------------------------- when one path stands for another

  /** In every later filesystem in which `p` names something, `q` names the same. */
  ghost predicate StandsFor(fs: Fs, cwd: Loc, p: Path, q: Path) {
    forall later :: Grown(fs, later) && Canonicalize(later, cwd, p).Some? ==>
      Canonicalize(later, cwd, q) == Canonicalize(later, cwd, p)
  }

  /** Decided now: `q` is foreseen to end where `p` does, needing no directory `p` does not. */
  predicate SameOutlook(fs: Fs, cwd: Loc, p: Path, q: Path) {
    var f, g := Outlook(fs, cwd, p), Outlook(fs, cwd, q);
    f.Never? || (g.Ends? && g.loc == f.loc && g.dirs <= f.dirs)
  }

  lemma OutlookExact(fs: Fs, later: Fs, cwd: Loc, p: Path)
    requires Grown(fs, later) && IsDir(fs, cwd)
    ensures Canonicalize(later, cwd, p) ==
            if Provided(later, Outlook(fs, cwd, p)) then Some(Outlook(fs, cwd, p).loc) else None
  {
    ForeseeExact(fs, later, if p.absolute then [] else cwd, p.comps, MAX_LINKS);
  }

  /** One path stands for another in every later filesystem exactly when their outlooks agree now. */
  lemma StandsForIff(fs: Fs, cwd: Loc, p: Path, q: Path)
    requires WellFormed(fs) && IsDir(fs, cwd)
    ensures StandsFor(fs, cwd, p, q) <==> SameOutlook(fs, cwd, p, q)
  {
    var f, g := Outlook(fs, cwd, p), Outlook(fs, cwd, q);
    if SameOutlook(fs, cwd, p, q) {
      forall later | Grown(fs, later) && Canonicalize(later, cwd, p).Some?
        ensures Canonicalize(later, cwd, q) == Canonicalize(later, cwd, p)
      {
        OutlookExact(fs, later, cwd, p);
        OutlookExact(fs, later, cwd, q);
      }
    }
    if StandsFor(fs, cwd, p, q) && f.Ends? {
      ForeseeBacked(fs, if p.absolute then [] else cwd, p.comps, MAX_LINKS, {});
      assert {} + f.dirs == f.dirs;
      var w := World(fs, f);
      WorldIsGrown(fs, f);
      OutlookExact(fs, w, cwd, p);
      OutlookExact(fs, w, cwd, q);
      DirsAreMissing(fs, if q.absolute then [] else cwd, q.comps, MAX_LINKS);
    }
  }

  lemma DirsAreMissing(fs: Fs, at: Loc, comps: seq<Component>, left: nat)
    requires WellFormed(fs) && at in fs && Foresee(fs, at, comps, left).Ends?
    ensures forall d :: d in Foresee(fs, at, comps, left).dirs ==> d !in fs
  {
    ForeseeBacked(fs, at, comps, left, {});
    assert {} + Foresee(fs, at, comps, left).dirs == Foresee(fs, at, comps, left).dirs;
  }

  /** `resolve_once` keeps the meaning of a path exactly when the outlooks agree... */
  lemma ResolveStandsForIff(fs: Fs, cwd: Loc, p: Path)
    requires WellFormed(fs) && IsDir(fs, cwd)
    ensures StandsFor(fs, cwd, p, Resolve(fs, cwd, p)) <==> SameOutlook(fs, cwd, p, Resolve(fs, cwd, p))
    ensures TailPopsNoLink(fs, cwd, p) ==> SameOutlook(fs, cwd, p, Resolve(fs, cwd, p))
  {
    StandsForIff(fs, cwd, p, Resolve(fs, cwd, p));
    if TailPopsNoLink(fs, cwd, p) {
      forall later | Grown(fs, later) && Canonicalize(later, cwd, p).Some?
        ensures Canonicalize(later, cwd, Resolve(fs, cwd, p)) == Canonicalize(later, cwd, p)
      {
        ResolveKeepsMeaning(fs, later, cwd, p);
      }
    }
  }

  // ------------------------------------------------- a path whose rewrite means something else

  /** A filesystem holding only `/link`, pointing at the missing `/x/y`. */
  function DanglingFs(): Fs {
    map[[] := Dir, ["link"] := Link(Path(true, [Normal("x"), Normal("y")]))]
  }

  /** `/link/../f` */
  function DanglingPath(): Path {
    Path(true, [Normal("link"), ParentDir, Normal("f")])
  }

  lemma NothingPastTheLink(comps: seq<Component>, left: nat)
    requires comps != [] && comps[0] == Normal("link")
    ensures Walk(DanglingFs(), [], comps, left).Failed?
  {
    var fs := DanglingFs();
    assert [] + ["link"] == ["link"] && ["link"] in fs && [] + ["x"] == ["x"] && ["x"] !in fs;
    if left > 0 {
      var rest := [Normal("x"), Normal("y")] + comps[1..];
      assert rest[0] == Normal("x");
      assert Walk(fs, [], rest, left - 1).Failed?;
    }
  }

  lemma DanglingOutlook()
    ensures Outlook(DanglingFs(), [], DanglingPath()) == Ends(["x", "f"], MAX_LINKS - 1, {["x"], ["x", "y"]})
  {
    var fs, k := DanglingFs(), MAX_LINKS - 1;
    assert [] + ["link"] == ["link"] && ["link"] in fs && [] + ["x"] == ["x"];
    assert ["x"] + ["y"] == ["x", "y"] && Up(["x", "y"]) == ["x"] && ["x"] + ["f"] == ["x", "f"];
    assert Foresee(fs, ["x", "f"], [], k) == Ends(["x", "f"], k, {});
    var last := [Normal("f")];
    assert last[1..] == [];
    assert Foresee(fs, ["x"], last, k) == Ends(["x", "f"], k, {["x"]});
    var back := [ParentDir, Normal("f")];
    assert back[1..] == last;
    assert Foresee(fs, ["x", "y"], back, k) == Ends(["x", "f"], k, {["x"], ["x", "y"]});
    var deep := [Normal("y"), ParentDir, Normal("f")];
    assert deep[1..] == back;
    assert Foresee(fs, ["x"], deep, k) == Ends(["x", "f"], k, {["x"], ["x", "y"]});
    var whole := [Normal("x"), Normal("y")] + back;
    assert whole[1..] == deep;
    assert DanglingPath().comps[1..] == back;
  }

  /** A `..` after a dangling link: once `/x/y` exists the path means `/x/f`, its rewrite `/f`. */
  lemma DanglingLinkBreaksMeaning()
    ensures WellFormed(DanglingFs())
    ensures Resolve(DanglingFs(), [], DanglingPath()) == Spelled(["f"])
    ensures !StandsFor(DanglingFs(), [], DanglingPath(), Spelled(["f"]))
  {
    var fs, p := DanglingFs(), DanglingPath();
    forall k | 1 <= k <= 3
      ensures Canonicalize(fs, [], Prefix(p, k)).None?
    {
      NothingPastTheLink(p.comps[..k], MAX_LINKS);
    }
    assert Canonicalize(fs, [], Prefix(p, 0)) == Some([]);
    assert Deepest(fs, [], p, 3) == Some(0);
    assert p.comps[0..] == p.comps;
    FoldsToF();
    DanglingOutlook();
    assert Names(["f"])[1..] == [] && [] + ["f"] == ["f"];
    assert Outlook(fs, [], Spelled(["f"])).loc == ["f"];
    StandsForIff(fs, [], p, Spelled(["f"]));
  }

  lemma FoldsToF()
    ensures Fold([], DanglingPath().comps) == ["f"]
  {
    var all := DanglingPath().comps;
    var root: Loc := [];
    PopUndoesPush(root, "link", all);
    var last := all[2..];
    assert last == [Normal("f")] && last[1..] == [] && root + ["f"] == ["f"];
  }

  /** A name and the `..` after it cancel in the lexical fold. */
  lemma PopUndoesPush(cur: Loc, n: string, rest: seq<Component>)
    requires |rest| >= 2 && rest[0] == Normal(n) && rest[1] == ParentDir
    ensures Fold(cur, rest) == Fold(cur, rest[2..])
  {
    assert Up(cur + [n]) == cur;
    assert rest[1..][0] == ParentDir && rest[1..][1..] == rest[2..];
  }
}
