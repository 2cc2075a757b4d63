/** OCI planning (oci.py): every bound image becomes the OCI images and
    manifests to produce for it, and the images of its dependents are made
    to depend on them. */
module Oci {
  import opened Wrappers
  import opened Seqs
  import opened Text
  import opened Dicts
  import opened Binding
  import opened Templates
  import opened BoundConfigs
  import Dot

  /** `OCIImage` and `OCIManifest`. An image built for no particular
      architecture has no `arch` and no `variant`. */
  datatype OciNode =
    | OciImage(fqn: string, context: string, arguments: seq<(string, string)>, arch: Option<string>, variant: Option<string>)
    | OciManifest(fqn: string, images: seq<string>)

  /** `OCIGraph`: each node mapped to the nodes it depends on. */
  type OciGraph = Dict<OciNode, seq<OciNode>>

  /** The names of the nodes of a graph. */
  function Names(g: OciGraph): set<string> {
    set n | n in g.items :: n.fqn
  }

  function FqnsOf(ns: seq<OciNode>): (r: seq<string>)
    ensures |r| == |ns| && forall i :: 0 <= i < |ns| ==> r[i] == ns[i].fqn
  {
    seq(|ns|, i requires 0 <= i < |ns| => ns[i].fqn)
  }

  // ---------------------------------------------------------------------
  // The nodes of one bound image

  /** The temporary tag suffix of the image built for one architecture:
      `-arch-variant`, or `-arch` when the variant is falsy. */
  function Suffix(a: Arch): (r: string)
    ensures |r| > |a.name| && r[..1 + |a.name|] == "-" + a.name
    ensures Truthy(a.variant) ==> r[1 + |a.name|..] == "-" + a.variant.value
    ensures !Truthy(a.variant) ==> |r| == 1 + |a.name|
  {
    if Truthy(a.variant) then "-" + a.name + "-" + a.variant.value else "-" + a.name
  }

  /** What `_extend_oci_graph` creates for one bound image: its images, and
      the manifest listing them when it is built for several architectures. */
  datatype Expansion = Expansion(images: seq<OciNode>, manifest: Option<OciNode>) {
    /** What the images of a dependent are made to depend on. */
    function Targets(): seq<OciNode> {
      if manifest.Some? then [manifest.value] else images
    }
  }

  /** The nodes of bound image `b` whose build arguments render as `args`.
      With architectures: one image per architecture, tagged with its
      suffix, and a manifest under the image's own name listing their names
      in order. Without: one image under the image's own name. */
  function Expand(b: BoundImage, args: seq<(string, string)>): (e: Expansion)
    ensures |b.arches| > 0 ==>
      |e.images| == |b.arches| && e.manifest == Some(OciManifest(Fqn(b), FqnsOf(e.images)))
    ensures |b.arches| > 0 ==> forall i :: 0 <= i < |b.arches| ==>
      e.images[i].OciImage? && e.images[i].fqn == Fqn(b) + Suffix(b.arches[i]) &&
      e.images[i].arch == Some(b.arches[i].name) && e.images[i].variant == b.arches[i].variant
    ensures |b.arches| == 0 ==> e.images == [OciImage(Fqn(b), b.context, args, None, None)] && e.manifest.None?
    ensures forall n :: n in e.images ==> n.OciImage? && n.context == b.context && n.arguments == args
  {
    if |b.arches| > 0 then
      var images := seq(|b.arches|, i requires 0 <= i < |b.arches| =>
        OciImage(Fqn(b) + Suffix(b.arches[i]), b.context, args, Some(b.arches[i].name), b.arches[i].variant));
      Expansion(images, Some(OciManifest(Fqn(b), FqnsOf(images))))
    else
      Expansion([OciImage(Fqn(b), b.context, args, None, None)], None)
  }

  /** The node in `m`, if any. */
  function Opt(m: Option<OciNode>): set<OciNode> {
    if m.Some? then {m.value} else {}
  }

  /** The nodes of a bound image as `build_graph` plans them. */
  function ExpandIn(bc: BoundConfig, b: BoundImage): Expansion {
    Expand(b, BuildArgs(b, bc.resolvers))
  }

  /** The node the dependents of an image are made to depend on is named
      after the image, and the per-architecture images are not. */
  lemma ExpandNames(b: BoundImage, args: seq<(string, string)>)
    ensures var e := Expand(b, args);
      (forall n :: n in e.Targets() ==> n.fqn == Fqn(b) || n in e.images) &&
      (e.manifest.Some? ==> e.manifest.value.fqn == Fqn(b) && e.Targets() == [e.manifest.value]) &&
      (e.manifest.None? ==> e.Targets() == e.images && e.images[0].fqn == Fqn(b))
    ensures var e := Expand(b, args);
      e.manifest.Some? ==> forall n :: n in e.images ==> |n.fqn| > |Fqn(b)| && n.fqn[..|Fqn(b)| + 1] == Fqn(b) + "-"
  {
    var e := Expand(b, args);
    if e.manifest.Some? {
      forall n | n in e.images ensures |n.fqn| > |Fqn(b)| && n.fqn[..|Fqn(b)| + 1] == Fqn(b) + "-" {
        var i :| 0 <= i < |e.images| && e.images[i] == n;
        var s := Suffix(b.arches[i]);
        assert n.fqn == Fqn(b) + s;
        assert s[..1] == "-";
      }
    }
  }

  // ---------------------------------------------------------------------
  // Graph invariants

  /** Every dependency is a node, and no node lists a dependency twice (the
      dependencies of a node form a set). */
  predicate DepsKnown(g: OciGraph) {
    forall n :: n in g.items ==> Elems(g.items[n]) <= g.items.Keys && Distinct(g.items[n])
  }

  /** The names of the manifests of a graph. */
  function ManifestNames(g: OciGraph): (r: set<string>)
    ensures r <= Names(g)
  {
    set n | n in g.items && n.OciManifest? :: n.fqn
  }

  /** The name of a per-architecture image ends in its suffix, and what
      comes before the suffix is the name of a manifest. */
  predicate Based(n: OciNode, names: set<string>)
    requires n.OciImage? && n.arch.Some?
  {
    var s := Suffix(Arch(n.arch.value, n.variant));
    |s| <= |n.fqn| && n.fqn[|n.fqn| - |s|..] == s && n.fqn[..|n.fqn| - |s|] in names
  }

  predicate Anchored(g: OciGraph) {
    forall n :: n in g.items && n.OciImage? && n.arch.Some? ==> Based(n, ManifestNames(g))
  }

  /** What holds of every graph `build_graph` builds. */
  predicate Planned(g: OciGraph) {
    g.Valid() && DepsKnown(g) && Anchored(g)
  }

  /** `h` extends `g`: the nodes of `g` keep their order, and each keeps the
      dependencies it had, in their order. */
  predicate Grows(g: OciGraph, h: OciGraph) {
    g.keys <= h.keys && forall n :: n in g.items ==> n in h.items && g.items[n] <= h.items[n]
  }

  lemma GrowsNames(g: OciGraph, h: OciGraph)
    requires Grows(g, h)
    ensures Names(g) <= Names(h)
  {
    forall x | x in Names(g) ensures x in Names(h) {
      var n :| n in g.items && n.fqn == x;
      assert n in h.items;
    }
  }

  lemma GrowsTransitive(f: OciGraph, g: OciGraph, h: OciGraph)
    requires Grows(f, g) && Grows(g, h)
    ensures Grows(f, h)
  {
  }

  // ---------------------------------------------------------------------
  // Building blocks

  /** `s.add(x)` for each `x` of `xs`, on a set kept in insertion order. */
  function AddAll<T(==)>(s: seq<T>, xs: seq<T>): (r: seq<T>)
    requires Distinct(s)
    ensures Distinct(r) && s <= r
    ensures Elems(r) == Elems(s) + Elems(xs)
    decreases |xs|
  {
    if |xs| == 0 then s
    else
      var s1 := if xs[0] in s then s else s + [xs[0]];
      assert Elems(s1) == Elems(s) + {xs[0]};
      assert Elems(xs) == {xs[0]} + Elems(xs[1..]) by { assert xs == [xs[0]] + xs[1..]; }
      AddAll(s1, xs[1..])
  }

  /** `set(xs)`, in insertion order. */
  function Dedup<T(==)>(xs: seq<T>): (r: seq<T>)
    ensures Distinct(r) && Elems(r) == Elems(xs)
  {
    AddAll([], xs)
  }

  /** `g[n] = set()` for each `n` of `ns`, in order. */
  function PutEmpty(g: OciGraph, ns: seq<OciNode>): (r: OciGraph)
    requires g.Valid()
    ensures r.Valid() && g.keys <= r.keys
    ensures r.items.Keys == g.items.Keys + Elems(ns)
    ensures forall n :: n in ns ==> r.items[n] == []
    ensures forall n :: n in g.items && n !in ns ==> r.items[n] == g.items[n]
    decreases |ns|
  {
    if |ns| == 0 then g
    else
      assert Elems(ns) == {ns[0]} + Elems(ns[1..]) by { assert ns == [ns[0]] + ns[1..]; }
      PutEmpty(Put(g, ns[0], []), ns[1..])
  }

  /** No node the expansion of `b` creates is in a planned graph that does
      not have `b`'s name yet. */
  lemma ExpansionFresh(g: OciGraph, b: BoundImage, args: seq<(string, string)>)
    requires Planned(g) && Fqn(b) !in Names(g)
    ensures forall n :: n in Expand(b, args).images ==> n !in g.items
    ensures Expand(b, args).manifest.Some? ==> Expand(b, args).manifest.value !in g.items
  {
    var e := Expand(b, args);
    forall n | n in e.images ensures n !in g.items {
      if |b.arches| == 0 {
        assert n.fqn == Fqn(b);
      } else {
        var i :| 0 <= i < |e.images| && e.images[i] == n;
        var s := Suffix(b.arches[i]);
        assert Arch(n.arch.value, n.variant) == b.arches[i];
        assert n.fqn[..|n.fqn| - |s|] == Fqn(b);
        assert n.fqn[|n.fqn| - |s|..] == s;
        assert !Based(n, ManifestNames(g));
      }
    }
  }

  /** The nodes of `b` put in a graph that does not have them: its images
      first with no dependencies, then the manifest depending on them. */
  function AddNodes(g: OciGraph, b: BoundImage, args: seq<(string, string)>): (r: OciGraph)
    requires Planned(g) && Fqn(b) !in Names(g)
    ensures Planned(r) && Grows(g, r)
    ensures Names(g) + {Fqn(b)} <= Names(r)
    ensures r.items.Keys == g.items.Keys + Elems(Expand(b, args).images) + Opt(Expand(b, args).manifest)
    ensures forall n :: n in g.items ==> r.items[n] == g.items[n]
    ensures forall n :: n in Expand(b, args).images ==> n in r.items && r.items[n] == []
    ensures Expand(b, args).manifest.Some? ==> var m := Expand(b, args).manifest.value;
      m in r.items && Elems(r.items[m]) == Elems(Expand(b, args).images)
  {
    var e := Expand(b, args);
    ExpansionFresh(g, b, args);
    var g1 := PutEmpty(g, e.images);
    var r := if e.manifest.Some? then Put(g1, e.manifest.value, Dedup(e.images)) else g1;
    AddNodesPlanned(g, b, args, g1, r);
    r
  }

  lemma AddNodesPlanned(g: OciGraph, b: BoundImage, args: seq<(string, string)>, g1: OciGraph, r: OciGraph)
    requires Planned(g) && Fqn(b) !in Names(g)
    requires var e := Expand(b, args);
      (forall n :: n in e.images ==> n !in g.items) && (e.manifest.Some? ==> e.manifest.value !in g.items) &&
      g1 == PutEmpty(g, e.images) &&
      r == if e.manifest.Some? then Put(g1, e.manifest.value, Dedup(e.images)) else g1
    ensures Planned(r) && Grows(g, r)
    ensures Names(g) + {Fqn(b)} <= Names(r)
    ensures r.items.Keys == g.items.Keys + Elems(Expand(b, args).images) + Opt(Expand(b, args).manifest)
    ensures forall n :: n in g.items ==> r.items[n] == g.items[n]
  {
    var e := Expand(b, args);
    AddNodesDeps(g, e, g1, r);
    AddNodesNames(g, b, args, r);
    AddNodesAnchored(g, b, args, r);
    GrowsNames(g, r);
  }

  lemma AddNodesDeps(g: OciGraph, e: Expansion, g1: OciGraph, r: OciGraph)
    requires g.Valid() && DepsKnown(g)
    requires (forall n :: n in e.images ==> n !in g.items) && (e.manifest.Some? ==> e.manifest.value !in g.items)
    requires g1 == PutEmpty(g, e.images)
    requires r == if e.manifest.Some? then Put(g1, e.manifest.value, Dedup(e.images)) else g1
    ensures r.Valid() && DepsKnown(r) && Grows(g, r)
    ensures forall n :: n in g.items ==> r.items[n] == g.items[n]
  {
    assert forall n :: n in g.items ==> n in r.items && r.items[n] == g.items[n];
    forall n | n in r.items ensures Elems(r.items[n]) <= r.items.Keys && Distinct(r.items[n]) {
      if n in g.items {
        assert r.items[n] == g.items[n];
      } else if e.manifest.Some? && n == e.manifest.value {
        assert r.items[n] == Dedup(e.images);
      } else {
        assert r.items[n] == [];
      }
    }
  }

  lemma AddNodesNames(g: OciGraph, b: BoundImage, args: seq<(string, string)>, r: OciGraph)
    requires var e := Expand(b, args);
      r.items.Keys == g.items.Keys + Elems(e.images) + Opt(e.manifest)
    ensures Fqn(b) in Names(r)
  {
    var e := Expand(b, args);
    ExpandNames(b, args);
    assert e.Targets()[0] in r.items;
  }

  lemma AddNodesAnchored(g: OciGraph, b: BoundImage, args: seq<(string, string)>, r: OciGraph)
    requires Anchored(g)
    requires var e := Expand(b, args);
      r.items.Keys == g.items.Keys + Elems(e.images) + Opt(e.manifest)
    ensures Anchored(r)
  {
    var e := Expand(b, args);
    assert ManifestNames(g) <= ManifestNames(r) by {
      forall x | x in ManifestNames(g) ensures x in ManifestNames(r) {
        var n :| n in g.items && n.OciManifest? && n.fqn == x;
        assert n in r.items;
      }
    }
    forall n | n in r.items && n.OciImage? && n.arch.Some? ensures Based(n, ManifestNames(r)) {
      if n in g.items {
        assert Based(n, ManifestNames(g));
      } else {
        var i :| 0 <= i < |e.images| && e.images[i] == n;
        var s := Suffix(b.arches[i]);
        assert Arch(n.arch.value, n.variant) == b.arches[i];
        assert n.fqn[..|n.fqn| - |s|] == Fqn(b);
        assert e.manifest.value in r.items;
      }
    }
  }

  /** Two graphs with the same nodes have the same names, and the same
      per-architecture images anchored. */
  lemma SameNodes(g: OciGraph, h: OciGraph)
    requires g.items.Keys == h.items.Keys
    ensures Names(g) == Names(h) && ManifestNames(g) == ManifestNames(h)
    ensures Anchored(g) ==> Anchored(h)
  {
  }

  /** `oci_graph[d].add(t)` for every `t` of `targets`. */
  function AddTo(g: OciGraph, d: OciNode, targets: seq<OciNode>): (r: OciGraph)
    requires Planned(g) && d in g.items && Elems(targets) <= g.items.Keys
    ensures Planned(r) && Grows(g, r) && r.keys == g.keys && r.items.Keys == g.items.Keys
    ensures Elems(r.items[d]) == Elems(g.items[d]) + Elems(targets)
    ensures forall x :: x in g.items && x != d ==> r.items[x] == g.items[x]
  {
    var r := Dict(g.keys, g.items[d := AddAll(g.items[d], targets)]);
    SameNodes(g, r);
    r
  }

  /** `oci_graph[d].add(t)` for every node `d` of `created` and `t` of
      `targets`: nothing else changes. */
  function AddEdges(g: OciGraph, created: seq<OciNode>, targets: seq<OciNode>): (r: OciGraph)
    requires Planned(g) && Elems(created) <= g.items.Keys && Elems(targets) <= g.items.Keys
    ensures Planned(r) && Grows(g, r) && r.keys == g.keys && r.items.Keys == g.items.Keys
    ensures forall d :: d in created ==> Elems(targets) <= Elems(r.items[d])
    ensures forall d :: d in g.items && d !in created ==> r.items[d] == g.items[d]
    ensures forall d :: d in g.items ==> Elems(r.items[d]) <= Elems(g.items[d]) + Elems(targets)
    decreases |created|
  {
    if |created| == 0 then g
    else
      var g1 := AddTo(g, created[0], targets);
      assert forall x :: x in created[1..] ==> x in created;
      var r := AddEdges(g1, created[1..], targets);
      GrowsTransitive(g, g1, r);
      assert forall x :: x in created ==> x == created[0] || x in created[1..];
      r
  }

  // ---------------------------------------------------------------------
  // `_extend_oci_graph` and `build_graph`, as written

  /** The names of the bound images not yet planned. */
  function Unplanned(bc: BoundConfig, g: OciGraph): set<string> {
    (set b | b in bc.images :: Fqn(b)) - Names(g)
  }

  /** `_extend_oci_graph(g, bc, b)`: nothing when a node already has `b`'s
      name; otherwise `b`'s nodes are added, then each dependent of `b` is
      extended in turn and the images that call creates are made to depend
      on `b`'s manifest, or on `b`'s images when it has no manifest.
      Returns the images created for `b`. */
  function Extend(bc: BoundConfig, g: OciGraph, b: BoundImage): (r: (OciGraph, seq<OciNode>))
    requires WellFormed(bc) && Planned(g) && b in bc.images
    ensures Planned(r.0) && Grows(g, r.0)
    ensures Fqn(b) in Names(r.0)
    ensures Fqn(b) in Names(g) ==> r == (g, [])
    ensures Fqn(b) !in Names(g) ==> r.1 == ExpandIn(bc, b).images
    ensures Elems(r.1) <= r.0.items.Keys
    decreases Unplanned(bc, g), 0
  {
    if Fqn(b) in Names(g) then (g, [])
    else
      var e := ExpandIn(bc, b);
      var g1 := AddNodes(g, b, BuildArgs(b, bc.resolvers));
      ExpandNames(b, BuildArgs(b, bc.resolvers));
      GrowsNames(g, g1);
      assert Unplanned(bc, g1) < Unplanned(bc, g) by {
        assert Fqn(b) in Unplanned(bc, g) - Unplanned(bc, g1);
      }
      var dependents := DependentsIn(IdsOf(bc.images), bc.deps, b.id);
      var g2 := ExtendDependents(bc, g1, dependents, e.Targets());
      GrowsTransitive(g, g1, g2);
      GrowsNames(g1, g2);
      (g2, e.images)
  }

  /** The loop of `_extend_oci_graph` over the dependents `ids` of an image
      whose dependents are made to depend on `targets`. */
  function ExtendDependents(bc: BoundConfig, g: OciGraph, ids: seq<string>, targets: seq<OciNode>): (r: OciGraph)
    requires WellFormed(bc) && Planned(g)
    requires forall x :: x in ids ==> x in IdsOf(bc.images)
    requires Elems(targets) <= g.items.Keys
    ensures Planned(r) && Grows(g, r)
    decreases Unplanned(bc, g), 1, |ids|
  {
    if |ids| == 0 then g
    else
      var d := GetImage(bc, ids[0]).value;
      var (g1, created) := Extend(bc, g, d);
      var g2 := AddEdges(g1, created, targets);
      GrowsTransitive(g, g1, g2);
      GrowsNames(g, g2);
      assert forall x :: x in ids[1..] ==> x in ids;
      var r := ExtendDependents(bc, g2, ids[1..], targets);
      GrowsTransitive(g, g2, r);
      r
  }

  /** The loop of `build_graph` over the ids `ids`. */
  function ExtendAll(bc: BoundConfig, g: OciGraph, ids: seq<string>): (r: OciGraph)
    requires WellFormed(bc) && Planned(g)
    requires forall x :: x in ids ==> x in IdsOf(bc.images)
    ensures Planned(r) && Grows(g, r)
    ensures forall x :: x in ids ==> Fqn(GetImage(bc, x).value) in Names(r)
    decreases |ids|
  {
    if |ids| == 0 then g
    else
      var (g1, _) := Extend(bc, g, GetImage(bc, ids[0]).value);
      assert forall x :: x in ids[1..] ==> x in ids;
      var r := ExtendAll(bc, g1, ids[1..]);
      GrowsTransitive(g, g1, r);
      GrowsNames(g1, r);
      assert forall x :: x in ids ==> x == ids[0] || x in ids[1..];
      r
  }

  /** `build_graph`: every bound image, in build order, extends the graph. */
  function BuildGraph(bc: BoundConfig): (r: OciGraph)
    requires WellFormed(bc) && forall x :: x in bc.order ==> x in IdsOf(bc.images)
    ensures Planned(r)
    ensures forall x :: x in bc.order ==> Fqn(GetImage(bc, x).value) in Names(r)
  {
    ExtendAll(bc, Empty(), bc.order)
  }

  // ---------------------------------------------------------------------
  // `graph_to_dot`

  /** A node is labelled with its fully qualified name, unescaped. */
  function DotLabel(n: OciNode): string {
    n.fqn
  }

  /** `graph_to_dot`: the graph written as `digraph oci_graph`. */
  function GraphToDot(g: OciGraph): string
    requires g.Valid()
  {
    Dot.Render("oci_graph", g, DotLabel)
  }

  /** Read back line by line, the output opens the `oci_graph` digraph,
      declares every node in insertion order, holds a line for every edge
      and closes the brace. */
  lemma GraphToDotLines(g: OciGraph)
    requires g.Valid()
    requires forall n :: n in g.items ==> '\n' !in n.fqn
    requires forall n, d :: n in g.items && d in g.items[n] ==> '\n' !in d.fqn
    ensures var ls := Split(GraphToDot(g), '\n');
      |ls| >= |g.keys| + 2 && ls[0] == "digraph oci_graph {" && ls[|ls| - 1] == "}" &&
      (forall i :: 0 <= i < |g.keys| ==> ls[1 + i] == "  \"" + g.keys[i].fqn + "\";") &&
      (forall n, d :: n in g.items && d in g.items[n] ==> "  \"" + n.fqn + "\" -> \"" + d.fqn + "\";" in ls)
  {
    Dot.RenderSplits("oci_graph", g, DotLabel);
    Dot.LinesShape("oci_graph", g, DotLabel);
    Dot.LinesNodes("oci_graph", g, DotLabel);
    Dot.LinesEdges("oci_graph", g, DotLabel);
    var ls := Dot.Lines("oci_graph", g, DotLabel);
    forall n, d | n in g.items && d in g.items[n] ensures Dot.EdgeLine(n.fqn, d.fqn) in ls {
      assert Dot.EdgeLine(DotLabel(n), DotLabel(d)) in ls[1 + |g.keys|..|ls| - 1];
    }
  }
}
