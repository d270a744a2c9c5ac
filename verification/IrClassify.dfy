/** Hardware quirk selection, IR classification of capture nodes and auto-selection. */
module IrClassify {
  import opened Basics
  import opened NamePattern

  datatype Quirk = Quirk(
    vendorId: Option<string>,
    productId: Option<string>,
    namePattern: Option<string>,
    modalias: Option<string>,
    nodeName: Option<string>,
    forceIr: Option<bool>,
    formatPreference: Option<string>)

  datatype UsbIds = UsbIds(vendor: string, product: string)
  datatype PlatformIdentity = PlatformIdentity(modalias: string, nodeName: string)

  datatype Device = Device(name: string, formats: seq<string>)

  /** A capture node with the hardware identity read for it. */
  datatype Node = Node(device: Device, usb: Option<UsbIds>, platform: Option<PlatformIdentity>)

  datatype MatchKind = UsbId | PlatformId | NameOnly
  datatype IrSource = FromQuirk | FromFormat | NotIr

  // -------------------------------------------------------------------- strings

  predicate Blank(c: char) {
    c == ' ' || '\t' <= c <= '\r'
  }

  function Trim(s: string): string {
    if s == "" then ""
    else if Blank(s[0]) then Trim(s[1..])
    else if Blank(s[|s| - 1]) then Trim(s[..|s| - 1])
    else s
  }

  function AsciiLower(s: string): string {
    seq(|s|, i requires 0 <= i < |s| =>
      if 'A' <= s[i] <= 'Z' then ((s[i] as int) + 32) as char else s[i])
  }

  predicate AsciiAlphanumeric(c: char) {
    'a' <= c <= 'z' || 'A' <= c <= 'Z' || '0' <= c <= '9'
  }

  /** A maximal alphanumeric run of the name reads `ir` or `infrared`. */
  predicate HasIrNameToken(name: string) {
    exists i, j :: 0 <= i < j <= |name| && IsToken(name, i, j)
                && AsciiLower(name[i..j]) in {"ir", "infrared"}
  }

  predicate IsToken(name: string, i: nat, j: nat)
    requires i < j <= |name|
  {
    && (i == 0 || !AsciiAlphanumeric(name[i - 1]))
    && (j == |name| || !AsciiAlphanumeric(name[j]))
    && forall k :: i <= k < j ==> AsciiAlphanumeric(name[k])
  }

  // -------------------------------------------------------------------- formats

  const IR_TYPICAL := {"GREY", "Y16", "Y12", "Y10", "Y8"}
  const DECODABLE := {"GREY", "Y16", "YUYV", "NV12", "MJPG"}

  predicate IrTypical(fourcc: string) { Trim(fourcc) in IR_TYPICAL }

  predicate HasDecodableFormat(d: Device) { exists f :: f in d.formats && Trim(f) in DECODABLE }

  predicate HasNativeIrFormat(d: Device) { exists f :: f in d.formats && IrTypical(f) }

  predicate MonoOnly(d: Device) { d.formats != [] && forall f :: f in d.formats ==> IrTypical(f) }

  // ------------------------------------------------------------- quirk selection

  predicate Hits(lower: string -> string, q: Quirk, kind: MatchKind, n: Node) {
    match kind
    case UsbId =>
      && n.usb.Some? && q.vendorId.Some? && q.productId.Some?
      && AsciiLower(q.vendorId.value) == AsciiLower(n.usb.value.vendor)
      && AsciiLower(q.productId.value) == AsciiLower(n.usb.value.product)
    case PlatformId =>
      && n.platform.Some?
      && q.modalias == Some(n.platform.value.modalias)
      && q.nodeName == Some(n.platform.value.nodeName)
    case NameOnly =>
      q.namePattern.Some? && Accepts(lower, q.namePattern.value, n.device.name)
  }

  /** One pass: the last-loaded entry that hits. */
  function LastHit(lower: string -> string, db: seq<Quirk>, kind: MatchKind, n: Node): (r: Option<nat>)
    ensures r.Some? ==> r.value < |db| && Hits(lower, db[r.value], kind, n)
    ensures r.Some? ==> forall i :: r.value < i < |db| ==> !Hits(lower, db[i], kind, n)
    ensures r.None? ==> forall i :: 0 <= i < |db| ==> !Hits(lower, db[i], kind, n)
  {
    if db == [] then None
    else if Hits(lower, db[|db| - 1], kind, n) then Some(|db| - 1)
    else LastHit(lower, db[..|db| - 1], kind, n)
  }

  /** `find_match_with_kind`: three passes, the most specific first. */
  function FindMatch(lower: string -> string, db: seq<Quirk>, n: Node): (r: Option<(Quirk, MatchKind)>)
    ensures r.Some? ==> r.value.0 in db && Hits(lower, r.value.0, r.value.1, n)
    ensures r.Some? && r.value.1.PlatformId? ==>
              forall i :: 0 <= i < |db| ==> !Hits(lower, db[i], UsbId, n)
    ensures r.Some? && r.value.1.NameOnly? ==>
              forall i :: 0 <= i < |db| ==> !Hits(lower, db[i], UsbId, n) && !Hits(lower, db[i], PlatformId, n)
    ensures r.None? ==> forall i, k :: 0 <= i < |db| ==> !Hits(lower, db[i], k, n)
  {
    var usb := LastHit(lower, db, UsbId, n);
    if usb.Some? then Some((db[usb.value], UsbId)) else
    var platform := LastHit(lower, db, PlatformId, n);
    if platform.Some? then Some((db[platform.value], PlatformId)) else
    var name := LastHit(lower, db, NameOnly, n);
    if name.Some? then Some((db[name.value], NameOnly)) else None
  }

  // ---------------------------------------------------- classification of one node

  function Heuristic(d: Device): IrSource {
    if MonoOnly(d) then FromFormat else NotIr
  }

  /** `ir_source_with_quirks_and_identity`. */
  function NodeSource(lower: string -> string, db: Option<seq<Quirk>>, n: Node): IrSource {
    var m := if db.Some? then FindMatch(lower, db.value, n) else None;
    if m.None? then Heuristic(n.device)
    else match m.value.0.forceIr
      case Some(false) => NotIr
      case Some(true) =>
        if m.value.1.NameOnly? && n.usb.None? && !MonoOnly(n.device) then Heuristic(n.device)
        else FromQuirk
      case None => Heuristic(n.device)
  }

  // --------------------------------------------------- classification of all nodes

  /** Some node of the same USB device is quirk-IR and offers a mono format. */
  predicate MonoSibling(lower: string -> string, db: Option<seq<Quirk>>, ns: seq<Node>, i: nat)
    requires i < |ns|
  {
    exists j :: 0 <= j < |ns| && MonoNode(lower, db, ns[j], ns[i].usb)
  }

  predicate MonoNode(lower: string -> string, db: Option<seq<Quirk>>, n: Node, usb: Option<UsbIds>) {
    n.usb == usb && NodeSource(lower, db, n).FromQuirk? && HasNativeIrFormat(n.device)
  }

  /** The closed form of the sibling pass: a quirk-IR node with a USB identity is
      demoted to not-IR exactly when it offers no mono format and a sibling does. */
  function Resolved(lower: string -> string, db: Option<seq<Quirk>>, ns: seq<Node>, i: nat): IrSource
    requires i < |ns|
  {
    var own := NodeSource(lower, db, ns[i]);
    if own.FromQuirk? && ns[i].usb.Some? && !HasNativeIrFormat(ns[i].device) && MonoSibling(lower, db, ns, i)
    then NotIr else own
  }

  /** The clause on the quirk's `format_preference`, as the sibling pass computes it. */
  predicate NodeHasIrFormat(d: Device, preference: Option<string>) {
    || HasNativeIrFormat(d)
    || (&& preference.Some? && IrTypical(preference.value)
        && exists f :: f in d.formats && Trim(f) == Trim(preference.value))
  }

  /** The preference never changes the answer. */
  lemma PreferenceIsIdle(d: Device, preference: Option<string>)
    ensures NodeHasIrFormat(d, preference) <==> HasNativeIrFormat(d)
  {
  }

  /** A demoted node falls back to "not IR": it has no mono format to be IR by. */
  lemma WithoutMono(d: Device)
    requires !HasNativeIrFormat(d)
    ensures Heuristic(d).NotIr?
  {
    if d.formats != [] { assert d.formats[0] in d.formats; }
  }

  /** Some node of the group offers a mono format. */
  predicate GroupHasMono(ns: seq<Node>, group: seq<nat>)
    requires forall i :: 0 <= i < |group| ==> group[i] < |ns|
  {
    exists i :: 0 <= i < |group| && HasNativeIrFormat(ns[group[i]].device)
  }

  /** Indices of the quirk-IR nodes with identity `ids`, in order. */
  method GroupOf(ns: seq<Node>, sources: seq<IrSource>, ids: UsbIds) returns (group: seq<nat>)
    requires |sources| == |ns|
    ensures forall j :: j in group <==> 0 <= j < |ns| && sources[j].FromQuirk? && ns[j].usb == Some(ids)
    ensures forall i :: 0 <= i < |group| ==> group[i] < |ns|
  {
    group := [];
    for j := 0 to |ns|
      invariant forall k :: k in group <==> 0 <= k < j && sources[k].FromQuirk? && ns[k].usb == Some(ids)
      invariant forall i :: 0 <= i < |group| ==> group[i] < |ns|
    {
      if sources[j].FromQuirk? && ns[j].usb == Some(ids) { group := group + [j]; }
    }
  }

  /** Demote the group's nodes without an IR format, if some node of it has one. */
  method Demote(ns: seq<Node>, sources: seq<IrSource>, group: seq<nat>, preference: Option<string>)
      returns (r: seq<IrSource>)
    requires |sources| == |ns| && forall i :: 0 <= i < |group| ==> group[i] < |ns|
    ensures |r| == |sources|
    ensures forall k :: 0 <= k < |r| ==>
              r[k] == if k in group && !HasNativeIrFormat(ns[k].device) && GroupHasMono(ns, group)
                      then NotIr else sources[k]
  {
    r := sources;
    var any := false;
    for i := 0 to |group|
      invariant any <==> exists k :: 0 <= k < i && HasNativeIrFormat(ns[group[k]].device)
    {
      PreferenceIsIdle(ns[group[i]].device, preference);
      if NodeHasIrFormat(ns[group[i]].device, preference) { any := true; }
    }
    if any {
      for i := 0 to |group|
        invariant |r| == |sources|
        invariant forall k :: 0 <= k < |r| ==>
                    r[k] == if k in group[..i] && !HasNativeIrFormat(ns[k].device) then NotIr else sources[k]
      {
        var j := group[i];
        PreferenceIsIdle(ns[j].device, preference);
        assert group[..i + 1] == group[..i] + [j];
        if !NodeHasIrFormat(ns[j].device, preference) {
          WithoutMono(ns[j].device);
          r := r[j := Heuristic(ns[j].device)];
        }
      }
      assert group[..|group|] == group;
    }
  }

  /** `classify_ir_sources_with_identity`: the per-node verdicts, then one sibling
      pass per USB identity not seen before. */
  method ClassifyIrSources(lower: string -> string, db: Option<seq<Quirk>>, ns: seq<Node>)
      returns (sources: seq<IrSource>)
    ensures |sources| == |ns|
    ensures forall i :: 0 <= i < |ns| ==> sources[i] == Resolved(lower, db, ns, i)
  {
    sources := seq(|ns|, i requires 0 <= i < |ns| => NodeSource(lower, db, ns[i]));
    var seen: seq<UsbIds> := [];
    for i := 0 to |ns|
      invariant |sources| == |ns|
      invariant forall k :: 0 <= k < |ns| ==>
                  sources[k] == if ns[k].usb.Some? && ns[k].usb.value in seen then Resolved(lower, db, ns, k)
                                else NodeSource(lower, db, ns[k])
      invariant forall k :: 0 <= k < i && NodeSource(lower, db, ns[k]).FromQuirk? && ns[k].usb.Some? ==>
                  ns[k].usb.value in seen
    {
      if !sources[i].FromQuirk? || ns[i].usb.None? { continue; }
      var ids := ns[i].usb.value;
      if ids in seen { continue; }
      var was := sources;
      seen := seen + [ids];
      var group := GroupOf(ns, sources, ids);
      if |group| >= 2 {
        var m := if db.Some? then FindMatch(lower, db.value, ns[i].(platform := None)) else None;
        var preference := if m.Some? then m.value.0.formatPreference else None;
        sources := Demote(ns, sources, group, preference);
      }
      PassResolves(lower, db, ns, group, ids, was, sources);
    }
  }

  /** One pass over a group settles every node of that identity; a group of one
      never demotes, so testing its size changes nothing. */
  lemma PassResolves(lower: string -> string, db: Option<seq<Quirk>>, ns: seq<Node>, group: seq<nat>,
                     ids: UsbIds, was: seq<IrSource>, now: seq<IrSource>)
    requires |was| == |ns| == |now|
    requires forall k :: 0 <= k < |ns| && ns[k].usb == Some(ids) ==> was[k] == NodeSource(lower, db, ns[k])
    requires forall j :: j in group <==> 0 <= j < |ns| && was[j].FromQuirk? && ns[j].usb == Some(ids)
    requires forall i :: 0 <= i < |group| ==> group[i] < |ns|
    requires |group| < 2 ==> now == was
    requires |group| >= 2 ==> forall k :: 0 <= k < |ns| ==>
               now[k] == if k in group && !HasNativeIrFormat(ns[k].device) && GroupHasMono(ns, group)
                         then NotIr else was[k]
    ensures forall k :: 0 <= k < |ns| ==>
              now[k] == if ns[k].usb == Some(ids) then Resolved(lower, db, ns, k) else was[k]
  {
    forall k | 0 <= k < |ns|
      ensures now[k] == if ns[k].usb == Some(ids) then Resolved(lower, db, ns, k) else was[k]
    {
      if ns[k].usb == Some(ids) {
        GroupIsSiblings(lower, db, ns, group, ids, was, k);
        assert k in group <==> was[k].FromQuirk?;
        if |group| < 2 && k in group { assert group == [k]; }
        assert |group| < 2 && k in group && GroupHasMono(ns, group) ==> HasNativeIrFormat(ns[k].device);
      }
    }
  }

  lemma GroupIsSiblings(lower: string -> string, db: Option<seq<Quirk>>, ns: seq<Node>, group: seq<nat>,
                        ids: UsbIds, was: seq<IrSource>, k: nat)
    requires |was| == |ns| && k < |ns| && ns[k].usb == Some(ids)
    requires forall i :: 0 <= i < |ns| && ns[i].usb == Some(ids) ==> was[i] == NodeSource(lower, db, ns[i])
    requires forall j :: j in group <==> 0 <= j < |ns| && was[j].FromQuirk? && ns[j].usb == Some(ids)
    requires forall i :: 0 <= i < |group| ==> group[i] < |ns|
    ensures MonoSibling(lower, db, ns, k) <==> GroupHasMono(ns, group)
  {
    if MonoSibling(lower, db, ns, k) {
      var j :| 0 <= j < |ns| && MonoNode(lower, db, ns[j], ns[k].usb);
      assert j in group;
      var i :| 0 <= i < |group| && group[i] == j;
    }
    if GroupHasMono(ns, group) {
      var i :| 0 <= i < |group| && HasNativeIrFormat(ns[group[i]].device);
      assert group[i] in group;
      assert MonoNode(lower, db, ns[group[i]], ns[k].usb);
    }
  }

  // --------------------------------------------------------- what the verdicts mean

  /** `ms` lists the nodes of `ns` in the order `perm`, whose inverse is `back`. */
  ghost predicate Permuted(ns: seq<Node>, ms: seq<Node>, perm: seq<nat>, back: seq<nat>) {
    && |perm| == |back| == |ns| == |ms|
    && (forall i :: 0 <= i < |perm| ==> perm[i] < |ns| && ms[i] == ns[perm[i]])
    && (forall j :: 0 <= j < |back| ==> back[j] < |ms| && perm[back[j]] == j)
  }

  /** Enumeration order does not matter: permuting the nodes permutes the verdicts. */
  lemma EnumerationOrderIsIdle(lower: string -> string, db: Option<seq<Quirk>>,
                               ns: seq<Node>, ms: seq<Node>, perm: seq<nat>, back: seq<nat>, i: nat)
    requires Permuted(ns, ms, perm, back) && i < |ms|
    ensures Resolved(lower, db, ms, i) == Resolved(lower, db, ns, perm[i])
  {
    if MonoSibling(lower, db, ns, perm[i]) {
      var j :| 0 <= j < |ns| && MonoNode(lower, db, ns[j], ns[perm[i]].usb);
      assert MonoNode(lower, db, ms[back[j]], ms[i].usb);
    }
    if MonoSibling(lower, db, ms, i) {
      var k :| 0 <= k < |ms| && MonoNode(lower, db, ms[k], ms[i].usb);
      assert MonoNode(lower, db, ns[perm[k]], ns[perm[i]].usb);
    }
  }

  /** No database, no name and no set of siblings makes a node without a hardware
      identity IR unless its whole, non-empty format set is mono; and such a node is
      then IR unless a quirk that names it says otherwise. */
  lemma WithoutIdentityOnlyMonoIsIr(lower: string -> string, db: Option<seq<Quirk>>, ns: seq<Node>, i: nat)
    requires i < |ns| && ns[i].usb.None? && ns[i].platform.None?
    ensures !Resolved(lower, db, ns, i).NotIr? <==>
              && MonoOnly(ns[i].device)
              && !(&& db.Some?
                   && FindMatch(lower, db.value, ns[i]).Some?
                   && FindMatch(lower, db.value, ns[i]).value.0.forceIr == Some(false))
  {
  }

  /** A sibling pass never invents IR: every node it calls IR was IR on its own, and
      it never empties a device of IR nodes. */
  lemma SiblingPassKeepsAnIrNode(lower: string -> string, db: Option<seq<Quirk>>, ns: seq<Node>, i: nat)
    requires i < |ns|
    ensures !Resolved(lower, db, ns, i).NotIr? ==> Resolved(lower, db, ns, i) == NodeSource(lower, db, ns[i])
    ensures NodeSource(lower, db, ns[i]).FromQuirk? ==>
              exists j :: 0 <= j < |ns| && ns[j].usb == ns[i].usb && Resolved(lower, db, ns, j).FromQuirk?
  {
    if NodeSource(lower, db, ns[i]).FromQuirk? && Resolved(lower, db, ns, i).NotIr? {
      var j :| 0 <= j < |ns| && MonoNode(lower, db, ns[j], ns[i].usb);
      assert Resolved(lower, db, ns, j).FromQuirk?;
    }
  }

  // ------------------------------------------- the verdict from the database and the formats

  function Specificity(k: MatchKind): nat {
    match k
    case UsbId => 2
    case PlatformId => 1
    case NameOnly => 0
  }

  /** Entry `i` decides for the node: the last loaded that hits it this way, and none hits it more specifically. */
  predicate Governs(lower: string -> string, db: seq<Quirk>, n: Node, i: nat, kind: MatchKind) {
    && i < |db| && Hits(lower, db[i], kind, n)
    && (forall j :: i < j < |db| ==> !Hits(lower, db[j], kind, n))
    && (forall j, k :: 0 <= j < |db| && Specificity(k) > Specificity(kind) ==> !Hits(lower, db[j], k, n))
  }

  /** A hardware identity, or for a match by name alone some USB identity or mono formats only. */
  predicate Corroborated(kind: MatchKind, n: Node) {
    kind.UsbId? || kind.PlatformId? || n.usb.Some? || MonoOnly(n.device)
  }

  /** The entry that decides says IR, and there is more to it than a name. */
  ghost predicate Forced(lower: string -> string, db: seq<Quirk>, n: Node) {
    exists i: nat, kind :: Governs(lower, db, n, i, kind) && db[i].forceIr == Some(true) && Corroborated(kind, n)
  }

  /** The entry that decides says not IR. */
  ghost predicate Barred(lower: string -> string, db: seq<Quirk>, n: Node) {
    exists i: nat, kind :: Governs(lower, db, n, i, kind) && db[i].forceIr == Some(false)
  }

  function Entries(db: Option<seq<Quirk>>): seq<Quirk> { if db.Some? then db.value else [] }

  /** The match is the entry that decides, if any entry hits at all. */
  lemma FindMatchGoverns(lower: string -> string, db: seq<Quirk>, n: Node) returns (i: nat)
    ensures var r := FindMatch(lower, db, n);
            r.Some? ==> Governs(lower, db, n, i, r.value.1) && db[i] == r.value.0
  {
    i := 0;
    var r := FindMatch(lower, db, n);
    if r.Some? {
      i := LastHit(lower, db, r.value.1, n).value;
    }
  }

  lemma OneGoverns(lower: string -> string, db: seq<Quirk>, n: Node, i: nat, a: MatchKind, j: nat, b: MatchKind)
    requires Governs(lower, db, n, i, a) && Governs(lower, db, n, j, b)
    ensures i == j && a == b
  {
    if Specificity(a) == Specificity(b) { assert a == b; }
  }

  /** A node by itself: quirk-IR exactly if it is forced, format-IR exactly if it is mono only and no entry decides otherwise. */
  lemma NodeSourceIff(lower: string -> string, db: Option<seq<Quirk>>, n: Node)
    ensures NodeSource(lower, db, n).FromQuirk? <==> Forced(lower, Entries(db), n)
    ensures NodeSource(lower, db, n).FromFormat? <==>
              MonoOnly(n.device) && !Forced(lower, Entries(db), n) && !Barred(lower, Entries(db), n)
  {
    var es := Entries(db);
    var r := FindMatch(lower, es, n);
    var at := FindMatchGoverns(lower, es, n);
    forall i: nat, kind | Governs(lower, es, n, i, kind)
      ensures r.Some? && i == at && kind == r.value.1
    {
      if r.Some? { OneGoverns(lower, es, n, i, kind, at, r.value.1); }
    }
  }

  /** A sibling, the node itself included, that is forced and offers a mono format. */
  ghost predicate ForcedMonoSibling(lower: string -> string, db: seq<Quirk>, ns: seq<Node>, i: nat)
    requires i < |ns|
  {
    exists j :: 0 <= j < |ns| && ns[j].usb == ns[i].usb && Forced(lower, db, ns[j]) && HasNativeIrFormat(ns[j].device)
  }

  /** The verdict among siblings, from nothing but the entries that hit, what they say, and the formats. */
  lemma ResolvedIff(lower: string -> string, db: Option<seq<Quirk>>, ns: seq<Node>, i: nat)
    requires i < |ns|
    ensures var es := Entries(db);
            var n := ns[i];
            && (Resolved(lower, db, ns, i).FromQuirk? <==>
                  Forced(lower, es, n) &&
                  (n.usb.None? || HasNativeIrFormat(n.device) || !ForcedMonoSibling(lower, es, ns, i)))
            && (Resolved(lower, db, ns, i).FromFormat? <==>
                  MonoOnly(n.device) && !Forced(lower, es, n) && !Barred(lower, es, n))
  {
    var es := Entries(db);
    NodeSourceIff(lower, db, ns[i]);
    forall j | 0 <= j < |ns|
      ensures MonoNode(lower, db, ns[j], ns[i].usb) <==>
              ns[j].usb == ns[i].usb && Forced(lower, es, ns[j]) && HasNativeIrFormat(ns[j].device)
    {
      NodeSourceIff(lower, db, ns[j]);
    }
  }

  /** A node with no siblings is quirk-IR exactly if it is forced. */
  lemma LoneNodeIff(lower: string -> string, db: Option<seq<Quirk>>, n: Node)
    ensures Resolved(lower, db, [n], 0).FromQuirk? <==> Forced(lower, Entries(db), n)
  {
    ResolvedIff(lower, db, [n], 0);
  }

  // ----------------------------------------------------------------- auto-selection

  /** The tests of the five selection rounds, in order. */
  predicate Round(t: nat, d: Device, s: IrSource)
    requires t < 5
  {
    && HasDecodableFormat(d)
    && match t
       case 0 => s.FromQuirk? && HasNativeIrFormat(d)
       case 1 => s.FromQuirk?
       case 2 => !s.NotIr? && HasIrNameToken(d.name)
       case 3 => !s.NotIr?
       case _ => true
  }

  /** `nodes().find(..)`: the first node that passes round `t`. */
  function FirstOf(ds: seq<Device>, ss: seq<IrSource>, t: nat, from: nat): (r: Option<nat>)
    requires |ds| == |ss| && t < 5 && from <= |ds|
    ensures r.Some? ==> from <= r.value < |ds| && Round(t, ds[r.value], ss[r.value])
    ensures r.Some? ==> forall i :: from <= i < r.value ==> !Round(t, ds[i], ss[i])
    ensures r.None? ==> forall i :: from <= i < |ds| ==> !Round(t, ds[i], ss[i])
    decreases |ds| - from
  {
    if from == |ds| then None
    else if Round(t, ds[from], ss[from]) then Some(from)
    else FirstOf(ds, ss, t, from + 1)
  }

  /** `pick_auto_device`. */
  function PickAutoDevice(ds: seq<Device>, ss: seq<IrSource>): Option<nat>
    requires |ds| == |ss|
  {
    var r0 := FirstOf(ds, ss, 0, 0);
    if r0.Some? then r0 else
    var r1 := FirstOf(ds, ss, 1, 0);
    if r1.Some? then r1 else
    var r2 := FirstOf(ds, ss, 2, 0);
    if r2.Some? then r2 else
    var r3 := FirstOf(ds, ss, 3, 0);
    if r3.Some? then r3 else FirstOf(ds, ss, 4, 0)
  }

  /** How good a candidate a node is: the first round it passes, 5 if none. */
  function Tier(d: Device, s: IrSource): nat {
    if !HasDecodableFormat(d) then 5
    else if s.FromQuirk? then (if HasNativeIrFormat(d) then 0 else 1)
    else if s.FromFormat? then (if HasIrNameToken(d.name) then 2 else 3)
    else 4
  }

  /** The pick is the first node of the lowest tier, and there is one exactly when
      some node is decodable. */
  lemma PickIsFirstOfLowestTier(ds: seq<Device>, ss: seq<IrSource>)
    requires |ds| == |ss|
    ensures var r := PickAutoDevice(ds, ss);
            && (r.None? <==> forall i :: 0 <= i < |ds| ==> !HasDecodableFormat(ds[i]))
            && (r.Some? ==> r.value < |ds| && Tier(ds[r.value], ss[r.value]) < 5)
            && (r.Some? ==> forall i :: 0 <= i < |ds| ==>
                  Tier(ds[r.value], ss[r.value]) <= Tier(ds[i], ss[i]))
            && (r.Some? ==> forall i :: 0 <= i < r.value ==>
                  Tier(ds[r.value], ss[r.value]) < Tier(ds[i], ss[i]))
  {
    forall i | 0 <= i < |ds|
      ensures forall t :: 0 <= t < 5 ==> (Round(t, ds[i], ss[i]) ==> Tier(ds[i], ss[i]) <= t)
      ensures Tier(ds[i], ss[i]) < 5 ==> Round(Tier(ds[i], ss[i]), ds[i], ss[i])
    {
    }
  }

  /** A color node is never picked over a decodable IR one. */
  lemma PickPrefersIr(ds: seq<Device>, ss: seq<IrSource>, i: nat)
    requires |ds| == |ss| && i < |ds| && !ss[i].NotIr? && HasDecodableFormat(ds[i])
    ensures PickAutoDevice(ds, ss).Some? && !ss[PickAutoDevice(ds, ss).value].NotIr?
  {
    PickIsFirstOfLowestTier(ds, ss);
  }
}
