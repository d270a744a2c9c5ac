/**
  The quirk name pattern: the greedy matcher against the reading its
  documentation gives. A pattern is literal characters and `.*` gaps, and it
  describes the whole name.
 */
module NamePattern {
  import opened Basics

  // ------------------------------------------------------ the declarative reading

  predicate Gap(p: string, i: nat) {
    i + 2 <= |p| && p[i] == '.' && p[i + 1] == '*'
  }

  /** A gap from `j` to `k`. */
  predicate Span(j: int, k: int) {
    j <= k
  }

  /** What follows `i` in the pattern describes the rest of the name after `j`: each
      `.*` spans any gap, every other character (a lone dot too) stands for itself. */
  predicate Reads(p: string, i: nat, n: string, j: nat)
    requires i <= |p| && j <= |n|
    decreases |p| - i
  {
    if i == |p| then j == |n|
    else if Gap(p, i) then exists k :: 0 <= k <= |n| && Span(j, k) && Reads(p, i + 2, n, k)
    else j < |n| && n[j] == p[i] && Reads(p, i + 1, n, j + 1)
  }

  predicate Describes(p: string, n: string) {
    Reads(p, 0, n, 0)
  }

  // ----------------------------------------------------------- splitting at `.*`

  /** `pattern.split(".*")`, leftmost and non-overlapping, from position `i`. */
  function Split(p: string, i: nat): (raw: seq<string>)
    requires i <= |p|
    ensures |raw| >= 1
    decreases |p| - i
  {
    if i == |p| then [""]
    else if Gap(p, i) then [""] + Split(p, i + 2)
    else var rest := Split(p, i + 1); [[p[i]] + rest[0]] + rest[1..]
  }

  /** Literal `t` occurs in `n` at `k`. */
  predicate Here(t: string, n: string, k: int) {
    0 <= k && k + |t| <= |n| && n[k..k + |t|] == t
  }

  /** The split literals in order from `j`, with an arbitrary gap between neighbours. */
  ghost predicate Segments(raw: seq<string>, n: string, j: int)
    requires |raw| >= 1
    decreases |raw|
  {
    && Here(raw[0], n, j)
    && if |raw| == 1 then j + |raw[0]| == |n|
       else exists k :: Span(j, k) && j + |raw[0]| <= k && Segments(raw[1..], n, k)
  }

  /** The same behind a gap: the first literal may start anywhere from `j` on. */
  ghost predicate Trailing(raw: seq<string>, n: string, j: int)
    requires |raw| >= 1
  {
    exists k :: Span(j, k) && Segments(raw, n, k)
  }

  lemma {:induction false} SplitReads(p: string, i: nat, n: string, j: nat)
    requires i <= |p| && j <= |n|
    ensures Segments(Split(p, i), n, j) <==> Reads(p, i, n, j)
    decreases |p| - i
  {
    var raw := Split(p, i);
    if i == |p| {
    } else if Gap(p, i) {
      assert raw[1..] == Split(p, i + 2);
      forall k | j <= k <= |n| ensures Segments(raw[1..], n, k) <==> Reads(p, i + 2, n, k) {
        SplitReads(p, i + 2, n, k);
      }
    } else {
      var rest := Split(p, i + 1);
      assert raw[0] == [p[i]] + rest[0] && raw[1..] == rest[1..];
      assert Here(raw[0], n, j) <==> j < |n| && n[j] == p[i] && Here(rest[0], n, j + 1) by {
        HereCons(p[i], rest[0], n, j);
      }
      if j < |n| { SplitReads(p, i + 1, n, j + 1); }
    }
  }

  lemma HereCons(c: char, t: string, n: string, j: nat)
    ensures Here([c] + t, n, j) <==> j < |n| && n[j] == c && Here(t, n, j + 1)
  {
    if j + 1 + |t| <= |n| {
      assert n[j..j + 1 + |t|] == [n[j]] + n[j + 1..j + 1 + |t|];
    }
  }

  // ------------------------------------------------- literals with optional anchors

  function NonEmpty(raw: seq<string>): seq<string> {
    if raw == [] then []
    else (if raw[0] == "" then [] else [raw[0]]) + NonEmpty(raw[1..])
  }

  /** The literals in order from `j`; the front and the back anchor unless wild. */
  ghost predicate Literals(parts: seq<string>, front: bool, back: bool, n: string, j: int)
    decreases |parts|
  {
    if parts == [] then back || j == |n|
    else exists k :: Span(j, k) && (front || k == j) && Here(parts[0], n, k)
                  && Literals(parts[1..], true, back, n, k + |parts[0]|)
  }

  lemma {:induction false} TrailingReads(raw: seq<string>, n: string, j: int)
    requires |raw| >= 1 && 0 <= j <= |n|
    ensures Trailing(raw, n, j) <==> Literals(NonEmpty(raw), true, raw[|raw| - 1] == "", n, j)
    decreases |raw|
  {
    if |raw| == 1 {
      assert NonEmpty(raw[1..]) == [];
      assert raw == [raw[0]];
      if raw[0] == "" { assert Span(j, |n|) && Segments(raw, n, |n|); } else { TrailingLast(raw[0], n, j); }
    } else {
      var rest := raw[1..];
      assert rest[|rest| - 1] == raw[|raw| - 1];
      if raw[0] == "" {
        TrailingReads(rest, n, j);
        TrailingSkip(raw, n, j);
        assert NonEmpty(raw) == NonEmpty(rest);
      } else {
        forall k | j <= k && Here(raw[0], n, k)
          ensures Trailing(rest, n, k + |raw[0]|) <==>
                  Literals(NonEmpty(rest), true, raw[|raw| - 1] == "", n, k + |raw[0]|)
        {
          TrailingReads(rest, n, k + |raw[0]|);
        }
        TrailingLiteral(raw, n, j);
      }
    }
  }

  /** Two gaps in a row are one. */
  lemma TrailingSkip(raw: seq<string>, n: string, j: int)
    requires |raw| >= 2 && raw[0] == "" && 0 <= j <= |n|
    ensures Trailing(raw, n, j) <==> Trailing(raw[1..], n, j)
  {
    if Trailing(raw[1..], n, j) {
      assert Span(j, j) && Segments(raw, n, j);
    }
    if Trailing(raw, n, j) {
      var k :| Span(j, k) && Segments(raw, n, k);
      var l :| Span(k, l) && Segments(raw[1..], n, l);
      assert Span(j, l);
    }
  }

  lemma TrailingLast(x: string, n: string, j: int)
    requires x != "" && 0 <= j <= |n|
    ensures Trailing([x], n, j) <==> Literals([x], true, false, n, j)
  {
    assert [x][1..] == [];
    if Trailing([x], n, j) {
      var k :| Span(j, k) && Segments([x], n, k);
      assert Span(j, k) && Here([x][0], n, k);
    }
    if Literals([x], true, false, n, j) {
      var k :| Span(j, k) && Here([x][0], n, k) && Literals([x][1..], true, false, n, k + |[x][0]|);
      assert Segments([x], n, k);
    }
  }

  lemma TrailingLiteral(raw: seq<string>, n: string, j: int)
    requires |raw| >= 2 && raw[0] != ""
    requires forall k :: j <= k && Here(raw[0], n, k) ==>
               (Trailing(raw[1..], n, k + |raw[0]|) <==>
                Literals(NonEmpty(raw[1..]), true, raw[|raw| - 1] == "", n, k + |raw[0]|))
    ensures Trailing(raw, n, j) <==> Literals(NonEmpty(raw), true, raw[|raw| - 1] == "", n, j)
  {
    var parts, back := NonEmpty(raw), raw[|raw| - 1] == "";
    assert parts[0] == raw[0] && parts[1..] == NonEmpty(raw[1..]);
    if Trailing(raw, n, j) {
      var k :| Span(j, k) && Segments(raw, n, k);
      SegmentsTail(raw, n, k);
      assert Span(j, k) && Here(parts[0], n, k);
    }
    if Literals(parts, true, back, n, j) {
      var k :| Span(j, k) && Here(parts[0], n, k) && Literals(parts[1..], true, back, n, k + |parts[0]|);
      SegmentsTail(raw, n, k);
    }
  }

  lemma SegmentsTail(raw: seq<string>, n: string, k: int)
    requires |raw| >= 2
    ensures Segments(raw, n, k) <==> Here(raw[0], n, k) && Trailing(raw[1..], n, k + |raw[0]|)
  {
    if Segments(raw, n, k) {
      var l :| Span(k, l) && k + |raw[0]| <= l && Segments(raw[1..], n, l);
      assert Span(k + |raw[0]|, l);
    }
    if Here(raw[0], n, k) && Trailing(raw[1..], n, k + |raw[0]|) {
      var l :| Span(k + |raw[0]|, l) && Segments(raw[1..], n, l);
      assert Span(k, l);
    }
  }

  /** The literals with their anchors say what the pattern says. */
  lemma LiteralsRead(p: string, n: string)
    ensures var raw := Split(p, 0);
            Literals(NonEmpty(raw), |raw| > 1 && raw[0] == "", |raw| > 1 && raw[|raw| - 1] == "", n, 0)
            <==> Describes(p, n)
  {
    SplitReads(p, 0, n, 0);
    var raw := Split(p, 0);
    if |raw| == 1 {
      assert NonEmpty(raw[1..]) == [];
      if raw[0] != "" { FrontStep([raw[0]], false, n, 0); }
    } else {
      assert raw[1..][|raw[1..]| - 1] == raw[|raw| - 1];
      SegmentsTail(raw, n, 0);
      if raw[0] == "" {
        TrailingReads(raw[1..], n, 0);
        assert NonEmpty(raw) == NonEmpty(raw[1..]);
      } else {
        FrontStep(NonEmpty(raw), raw[|raw| - 1] == "", n, 0);
        assert NonEmpty(raw)[0] == raw[0] && NonEmpty(raw)[1..] == NonEmpty(raw[1..]);
        if Here(raw[0], n, 0) { TrailingReads(raw[1..], n, |raw[0]|); }
      }
    }
  }

  // ------------------------------------------------------------ the greedy matcher

  /** `str::find` from `pos`: the first occurrence. */
  function Find(n: string, t: string, pos: nat): (r: Option<nat>)
    requires pos <= |n|
    ensures r.Some? ==> pos <= r.value && Here(t, n, r.value)
    ensures forall k :: pos <= k && Here(t, n, k) ==> r.Some? && r.value <= k
    decreases |n| - pos
  {
    if Here(t, n, pos) then Some(pos)
    else if pos == |n| then None
    else Find(n, t, pos + 1)
  }

  lemma FrontStep(parts: seq<string>, back: bool, n: string, j: int)
    requires parts != []
    ensures Literals(parts, false, back, n, j) <==>
            Here(parts[0], n, j) && Literals(parts[1..], true, back, n, j + |parts[0]|)
  {
    if Here(parts[0], n, j) && Literals(parts[1..], true, back, n, j + |parts[0]|) {
      assert Here(parts[0], n, j);
    }
  }

  /** A leading gap absorbs an earlier start. */
  lemma LiteralsGrow(parts: seq<string>, back: bool, n: string, i: int, j: int)
    requires i <= j && parts != [] && Literals(parts, true, back, n, j)
    ensures Literals(parts, true, back, n, i)
  {
    var k :| Span(j, k) && Here(parts[0], n, k) && Literals(parts[1..], true, back, n, k + |parts[0]|);
    assert Here(parts[0], n, k);
  }

  /** Taking the earliest occurrence loses nothing while more is to come. */
  lemma GreedyStep(parts: seq<string>, back: bool, n: string, j: nat)
    requires parts != [] && (back || |parts| > 1) && j <= |n|
    ensures var f := Find(n, parts[0], j);
            Literals(parts, true, back, n, j) <==>
            f.Some? && Literals(parts[1..], true, back, n, f.value + |parts[0]|)
  {
    var f := Find(n, parts[0], j);
    if Literals(parts, true, back, n, j) {
      var k :| Span(j, k) && Here(parts[0], n, k) && Literals(parts[1..], true, back, n, k + |parts[0]|);
      if |parts| > 1 { LiteralsGrow(parts[1..], back, n, f.value + |parts[0]|, k + |parts[0]|); }
    }
    if f.Some? && Literals(parts[1..], true, back, n, f.value + |parts[0]|) {
      assert Span(j, f.value) && Here(parts[0], n, f.value);
    }
  }

  /** The last literal, unless followed by a gap, must close the name. */
  lemma LastStep(x: string, n: string, j: int)
    ensures Literals([x], true, false, n, j) <==> j <= |n| - |x| && Here(x, n, |n| - |x|)
  {
    assert [x][1..] == [];
    if Literals([x], true, false, n, j) {
      var k :| Span(j, k) && Here([x][0], n, k) && Literals([x][1..], true, false, n, k + |[x][0]|);
    }
    if j <= |n| - |x| && Here(x, n, |n| - |x|) {
      assert Here([x][0], n, |n| - |x|);
    }
  }

  /** The loop of `name_matches` over the non-empty parts of the pattern. */
  method MatchParts(parts: seq<string>, startsWild: bool, endsWild: bool, name: string) returns (r: bool)
    requires parts != []
    ensures r <==> Literals(parts, startsWild, endsWild, name, 0)
  {
    var pos, i := 0, 0;
    assert parts[0..] == parts;
    while i < |parts|
      invariant 0 <= i <= |parts| && 0 <= pos <= |name|
      invariant Literals(parts, startsWild, endsWild, name, 0) <==>
                Literals(parts[i..], i > 0 || startsWild, endsWild, name, pos)
      invariant i == |parts| ==> endsWild || pos == |name|
    {
      var part, isFirst, isLast := parts[i], i == 0, i == |parts| - 1;
      assert parts[i..][0] == part && parts[i..][1..] == parts[i + 1..];
      if isFirst && !startsWild {
        FrontStep(parts[i..], endsWild, name, pos);
        if !Here(part, name, pos) { return false; }
        pos := pos + |part|;
        if isLast && !endsWild && pos != |name| { return false; }
      } else if isLast && !endsWild {
        assert parts[i..] == [part];
        LastStep(part, name, pos);
        if |part| > |name| || |name| - |part| < pos || !Here(part, name, |name| - |part|) { return false; }
        pos := |name|;
      } else {
        GreedyStep(parts[i..], endsWild, name, pos);
        var found := Find(name, part, pos);
        if found.None? { return false; }
        pos := found.value + |part|;
      }
      i := i + 1;
    }
    assert parts[i..] == [];
    r := true;
  }

  /** `strip_prefix("(?i)")`. */
  function Body(pattern: string): string {
    if "(?i)" <= pattern then pattern[4..] else pattern
  }

  /** Pattern and name as compared: lowercased by `lower` after a leading `(?i)`. */
  function Folded(lower: string -> string, pattern: string, s: string): string {
    if "(?i)" <= pattern then lower(s) else s
  }

  /** The names a quirk's pattern stands for: those it describes, and every name
      when there is nothing in it. */
  predicate Accepts(lower: string -> string, pattern: string, name: string) {
    var p := Folded(lower, pattern, Body(pattern));
    p == "" || Describes(p, Folded(lower, pattern, name))
  }

  /** The whole greedy matcher of `name_matches`. */
  method NameMatches(lower: string -> string, pattern: string, name: string) returns (r: bool)
    ensures r <==> Accepts(lower, pattern, name)
  {
    var n := Folded(lower, pattern, name);
    var p := Folded(lower, pattern, Body(pattern));
    var raw := Split(p, 0);
    var startsWild := |raw| > 1 && raw[0] == "";
    var endsWild := |raw| > 1 && raw[|raw| - 1] == "";
    var parts := NonEmpty(raw);
    LiteralsRead(p, n);
    if parts == [] {
      AllGaps(p, 0);
      return true;
    }
    r := MatchParts(parts, startsWild, endsWild, n);
  }

  lemma {:induction false} AllGaps(p: string, i: nat)
    requires i <= |p| && NonEmpty(Split(p, i)) == []
    ensures Split(p, i)[|Split(p, i)| - 1] == ""
    ensures i == |p| || |Split(p, i)| > 1
    decreases |p| - i
  {
    if i < |p| {
      var raw := Split(p, i);
      assert raw[0] == "";
      assert raw[1..] == Split(p, i + 2);
      AllGaps(p, i + 2);
      assert raw[|raw| - 1] == raw[1..][|raw[1..]| - 1];
    }
  }
}
