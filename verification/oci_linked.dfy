/** A planner of the OCI graph that links every dependency.

    `_extend_oci_graph` adds the edges from an image to its dependents only
    while it creates the dependents' nodes, so a dependent that an earlier
    dependency already planned never gets an edge to a later one (see the
    `Vee` configuration in `OciVee`). The planner here plans the nodes
    first, in build order, as `build_graph` does, and then links each image
    to every one of its dependencies. */
module OciLinked {
  import opened Wrappers
  import opened Seqs
  import opened Dicts
  import opened Templates
  import opened BoundConfigs
  import opened Oci

  /** The bound image with id `x`. */
  function ImageOf(bc: BoundConfig, x: string): (b: BoundImage)
    requires x in IdsOf(bc.images)
    ensures b in bc.images && b.id == x
  {
    GetImage(bc, x).value
  }

  /** The nodes that plan the image with id `x`. */
  function NodesOf(bc: BoundConfig, x: string): Expansion
    requires x in IdsOf(bc.images)
  {
    ExpandIn(bc, ImageOf(bc, x))
  }

  /** Every node of an expansion: its images and its manifest. */
  function AllNodes(e: Expansion): set<OciNode> {
    Elems(e.images) + Opt(e.manifest)
  }

  function FqnSet(ns: set<OciNode>): set<string> {
    set n | n in ns :: n.fqn
  }

  /** The nodes of the image with id `x` are all in `g`. */
  predicate PlannedId(bc: BoundConfig, g: OciGraph, x: string)
    requires x in IdsOf(bc.images)
  {
    AllNodes(NodesOf(bc, x)) <= g.items.Keys
  }

  /** Every image node of `y` depends on what the dependents of `x` are
      made to depend on: `x`'s manifest, or its image. */
  predicate Linked(bc: BoundConfig, g: OciGraph, y: string, x: string)
    requires y in IdsOf(bc.images) && x in IdsOf(bc.images)
  {
    forall n :: n in NodesOf(bc, y).images ==> n in g.items && Elems(NodesOf(bc, x).Targets()) <= Elems(g.items[n])
  }

  /** The targets of an expansion are among its nodes, and one of them has
      the image's name. */
  lemma TargetsIn(b: BoundImage, args: seq<(string, string)>)
    ensures Elems(Expand(b, args).Targets()) <= AllNodes(Expand(b, args))
    ensures Fqn(b) in FqnSet(AllNodes(Expand(b, args)))
  {
    var e := Expand(b, args);
    ExpandNames(b, args);
    assert e.Targets()[0] in AllNodes(e);
  }

  /** The names of a graph whose nodes are those of `g` and `s`. */
  lemma NamesOfKeys(g: OciGraph, h: OciGraph, s: set<OciNode>)
    requires h.items.Keys == g.items.Keys + s
    ensures Names(h) == Names(g) + FqnSet(s)
  {
    forall x | x in Names(h) ensures x in Names(g) + FqnSet(s) {
      var n :| n in h.items && n.fqn == x;
      if n in g.items { assert x in Names(g); } else { assert n in s; }
    }
    forall x | x in Names(g) + FqnSet(s) ensures x in Names(h) {
      if x in Names(g) {
        var n :| n in g.items && n.fqn == x;
        assert n in h.items;
      } else {
        var n :| n in s && n.fqn == x;
        assert n in h.items;
      }
    }
  }

  lemma GrowsKeys(g: OciGraph, h: OciGraph)
    requires g.Valid() && h.Valid() && Grows(g, h)
    ensures g.items.Keys <= h.items.Keys
  {
    forall n | n in g.items ensures n in h.items {
      assert n in Elems(g.keys);
    }
  }

  lemma LinkedGrows(bc: BoundConfig, g: OciGraph, h: OciGraph, y: string, x: string)
    requires y in IdsOf(bc.images) && x in IdsOf(bc.images)
    requires Grows(g, h) && Linked(bc, g, y, x)
    ensures Linked(bc, h, y, x)
  {
    forall n | n in NodesOf(bc, y).images
      ensures n in h.items && Elems(NodesOf(bc, x).Targets()) <= Elems(h.items[n])
    {
      assert g.items[n] <= h.items[n];
      forall t | t in g.items[n] ensures t in h.items[n] {
        var i :| 0 <= i < |g.items[n]| && g.items[n][i] == t;
        assert h.items[n][i] == t;
      }
    }
  }

  // ---------------------------------------------------------------------
  // First pass: the nodes

  /** The nodes of each image of `ids` in turn, unless a node already has
      the image's name, as `_extend_oci_graph` decides. */
  function PlanAll(bc: BoundConfig, g: OciGraph, ids: seq<string>): (r: OciGraph)
    requires Planned(g) && forall x :: x in ids ==> x in IdsOf(bc.images)
    ensures Planned(r) && Grows(g, r)
    ensures forall x :: x in ids ==> Fqn(ImageOf(bc, x)) in Names(r)
    decreases |ids|
  {
    if |ids| == 0 then g
    else
      var b := ImageOf(bc, ids[0]);
      var g1 := if Fqn(b) in Names(g) then g else AddNodes(g, b, BuildArgs(b, bc.resolvers));
      assert forall x :: x in ids[1..] ==> x in ids;
      var r := PlanAll(bc, g1, ids[1..]);
      GrowsTransitive(g, g1, r);
      GrowsNames(g1, r);
      assert forall x :: x in ids ==> x == ids[0] || x in ids[1..];
      r
  }

  /** No two images of `ids` share a node name. */
  predicate NamesApart(bc: BoundConfig, ids: seq<string>)
    requires forall x :: x in ids ==> x in IdsOf(bc.images)
  {
    forall x, y :: x in ids && y in ids && x != y ==>
      FqnSet(AllNodes(NodesOf(bc, x))) !! FqnSet(AllNodes(NodesOf(bc, y)))
  }

  /** When no two images of `ids` share a node name and none is named in
      `g` yet, the first pass plans every node of every image. */
  lemma {:induction false} PlanAllComplete(bc: BoundConfig, g: OciGraph, ids: seq<string>)
    requires Planned(g) && forall x :: x in ids ==> x in IdsOf(bc.images)
    requires Distinct(ids) && NamesApart(bc, ids)
    requires forall x :: x in ids ==> FqnSet(AllNodes(NodesOf(bc, x))) !! Names(g)
    ensures forall x :: x in ids ==> PlannedId(bc, PlanAll(bc, g, ids), x)
    decreases |ids|
  {
    if |ids| > 0 {
      var x0 := ids[0];
      var g1 := PlanFirst(bc, g, ids);
      DistinctTail(ids);
      forall x | x in ids[1..] ensures FqnSet(AllNodes(NodesOf(bc, x))) !! Names(g1) {
        assert FqnSet(AllNodes(NodesOf(bc, x))) !! FqnSet(AllNodes(NodesOf(bc, x0)));
      }
      PlanAllComplete(bc, g1, ids[1..]);
      var r := PlanAll(bc, g1, ids[1..]);
      GrowsKeys(g1, r);
      forall x | x in ids ensures PlannedId(bc, r, x) {
        if x != x0 { assert x in ids[1..]; }
      }
    }
  }

  /** One step of the first pass, on an image none of whose names is
      planned yet: its nodes are added and their names with them. */
  lemma PlanFirst(bc: BoundConfig, g: OciGraph, ids: seq<string>) returns (g1: OciGraph)
    requires Planned(g) && |ids| > 0 && forall x :: x in ids ==> x in IdsOf(bc.images)
    requires FqnSet(AllNodes(NodesOf(bc, ids[0]))) !! Names(g)
    ensures Planned(g1) && PlannedId(bc, g1, ids[0])
    ensures g1 == AddNodes(g, ImageOf(bc, ids[0]), BuildArgs(ImageOf(bc, ids[0]), bc.resolvers))
    ensures Names(g1) == Names(g) + FqnSet(AllNodes(NodesOf(bc, ids[0])))
    ensures PlanAll(bc, g, ids) == PlanAll(bc, g1, ids[1..])
  {
    var b := ImageOf(bc, ids[0]);
    var args := BuildArgs(b, bc.resolvers);
    TargetsIn(b, args);
    assert Fqn(b) !in Names(g);
    g1 := AddNodes(g, b, args);
    NamesOfKeys(g, g1, AllNodes(NodesOf(bc, ids[0])));
  }

  // ---------------------------------------------------------------------
  // Second pass: the edges

  /** Link the image `y` to the image `x` when the nodes of both are
      planned. */
  function LinkOne(bc: BoundConfig, g: OciGraph, y: string, x: string): (r: OciGraph)
    requires Planned(g) && y in IdsOf(bc.images) && x in IdsOf(bc.images)
    ensures Planned(r) && Grows(g, r) && r.items.Keys == g.items.Keys
    ensures PlannedId(bc, g, y) && PlannedId(bc, g, x) ==> Linked(bc, r, y, x)
  {
    if PlannedId(bc, g, y) && PlannedId(bc, g, x) then
      TargetsIn(ImageOf(bc, x), BuildArgs(ImageOf(bc, x), bc.resolvers));
      AddEdges(g, NodesOf(bc, y).images, NodesOf(bc, x).Targets())
    else g
  }

  /** Link the image `y` to each image of `xs` whose nodes, like `y`'s,
      are planned. */
  function LinkTo(bc: BoundConfig, g: OciGraph, y: string, xs: seq<string>): (r: OciGraph)
    requires Planned(g) && y in IdsOf(bc.images) && forall x :: x in xs ==> x in IdsOf(bc.images)
    ensures Planned(r) && Grows(g, r) && r.items.Keys == g.items.Keys
    ensures forall x :: x in xs && PlannedId(bc, g, y) && PlannedId(bc, g, x) ==> Linked(bc, r, y, x)
    decreases |xs|
  {
    if |xs| == 0 then g
    else
      var g1 := LinkOne(bc, g, y, xs[0]);
      assert forall x :: x in xs[1..] ==> x in xs;
      var r := LinkTo(bc, g1, y, xs[1..]);
      GrowsTransitive(g, g1, r);
      if PlannedId(bc, g, y) && PlannedId(bc, g, xs[0]) then
        LinkedGrows(bc, g1, r, y, xs[0]);
        assert forall x :: x in xs ==> x == xs[0] || x in xs[1..];
        r
      else
        assert forall x :: x in xs ==> x == xs[0] || x in xs[1..];
        r
  }

  /** Link each image of `ys` to each of its dependencies, taken in build
      order. */
  function LinkAll(bc: BoundConfig, g: OciGraph, ys: seq<string>): (r: OciGraph)
    requires WellFormed(bc) && Planned(g)
    requires forall y :: y in ys ==> y in IdsOf(bc.images)
    requires forall x :: x in bc.order ==> x in IdsOf(bc.images)
    ensures Planned(r) && Grows(g, r) && r.items.Keys == g.items.Keys
    ensures forall y, x ::
      y in ys && x in bc.order && x in bc.deps[y] && PlannedId(bc, g, y) && PlannedId(bc, g, x) ==>
      Linked(bc, r, y, x)
    decreases |ys|
  {
    if |ys| == 0 then g
    else
      var y0 := ys[0];
      assert y0 in bc.deps;
      var xs := Keep(bc.order, bc.deps[y0]);
      assert forall x :: x in xs ==> x in bc.order by {
        forall x | x in xs ensures x in bc.order { assert x in Elems(xs); }
      }
      var g1 := LinkTo(bc, g, y0, xs);
      assert forall y :: y in ys[1..] ==> y in ys;
      var r := LinkAll(bc, g1, ys[1..]);
      GrowsTransitive(g, g1, r);
      forall y, x | y in ys && x in bc.order && x in bc.deps[y] && PlannedId(bc, g, y) && PlannedId(bc, g, x)
        ensures Linked(bc, r, y, x)
      {
        assert PlannedId(bc, g1, y) && PlannedId(bc, g1, x);
        if y == y0 {
          assert x in Elems(xs);
          LinkedGrows(bc, g1, r, y0, x);
        } else {
          assert y in ys[1..];
        }
      }
      r
  }

  /** `build_graph` with every dependency linked: the nodes of every image
      in build order, then the edges. Whenever the nodes of an image and of
      one of its dependencies are planned, each image node of the first
      depends on the targets of the second. */
  function BuildGraphLinked(bc: BoundConfig): (r: OciGraph)
    requires WellFormed(bc) && forall x :: x in bc.order ==> x in IdsOf(bc.images)
    ensures Planned(r)
    ensures forall x :: x in bc.order ==> Fqn(ImageOf(bc, x)) in Names(r)
    ensures forall y, x ::
      y in bc.order && x in bc.order && x in bc.deps[y] && PlannedId(bc, r, y) && PlannedId(bc, r, x) ==>
      Linked(bc, r, y, x)
  {
    var p := PlanAll(bc, Empty(), bc.order);
    var r := LinkAll(bc, p, bc.order);
    GrowsNames(p, r);
    r
  }

  /** The corrected planner adds no other edges: each is a manifest's edge
      to its own images or an edge from an image to a dependency. */
  lemma BuildGraphLinkedEdges(bc: BoundConfig)
    requires WellFormed(bc) && forall x :: x in bc.order ==> x in IdsOf(bc.images)
    ensures forall n, t ::
      n in BuildGraphLinked(bc).items && t in BuildGraphLinked(bc).items[n] ==> ManifestEdge(bc, n, t) || DepEdge(bc, n, t)
  {
    var g0: OciGraph := Empty();
    PlanAllExplained(bc, g0, bc.order);
    LinkAllExplained(bc, PlanAll(bc, g0, bc.order), bc.order);
    assert EdgesExplained(bc, BuildGraphLinked(bc));
  }

  /** No two images in build order share a node name, and the order lists
      each image once. */
  predicate Separate(bc: BoundConfig)
    requires forall x :: x in bc.order ==> x in IdsOf(bc.images)
  {
    Distinct(bc.order) && NamesApart(bc, bc.order)
  }

  /** When the images are separate, every node is planned and every
      dependency is linked. */
  lemma BuildGraphLinkedComplete(bc: BoundConfig)
    requires WellFormed(bc) && forall x :: x in bc.order ==> x in IdsOf(bc.images)
    requires Separate(bc)
    ensures forall x :: x in bc.order ==> PlannedId(bc, BuildGraphLinked(bc), x)
    ensures forall y, x :: y in bc.order && x in bc.order && x in bc.deps[y] ==> Linked(bc, BuildGraphLinked(bc), y, x)
  {
    var g0: OciGraph := Empty();
    assert Names(g0) == {};
    PlanAllComplete(bc, g0, bc.order);
  }

  /** When the images are separate, every manifest lists its images. */
  lemma BuildGraphLinkedManifests(bc: BoundConfig)
    requires WellFormed(bc) && forall x :: x in bc.order ==> x in IdsOf(bc.images)
    requires Separate(bc)
    ensures forall n, t :: ManifestEdge(bc, n, t) ==> n in BuildGraphLinked(bc).items && t in BuildGraphLinked(bc).items[n]
  {
    var g0: OciGraph := Empty();
    assert Names(g0) == {};
    PlanAllManifests(bc, g0, bc.order);
    var p := PlanAll(bc, g0, bc.order);
    var r := BuildGraphLinked(bc);
    assert r == LinkAll(bc, p, bc.order);
    forall n, t | ManifestEdge(bc, n, t) ensures n in r.items && t in r.items[n] {
      var x :| x in bc.order && x in IdsOf(bc.images) && NodesOf(bc, x).manifest == Some(n) && t in NodesOf(bc, x).images;
      ManifestListedGrows(bc, p, r, x);
      assert t in Elems(r.items[n]);
    }
  }

  /** When the images are separate, the edges of the corrected planner are
      exactly the manifest edges and the dependency edges. */
  lemma BuildGraphLinkedExact(bc: BoundConfig)
    requires WellFormed(bc) && forall x :: x in bc.order ==> x in IdsOf(bc.images)
    requires Separate(bc)
    ensures forall n, t ::
      n in BuildGraphLinked(bc).items && t in BuildGraphLinked(bc).items[n] <==> ManifestEdge(bc, n, t) || DepEdge(bc, n, t)
  {
    var r := BuildGraphLinked(bc);
    BuildGraphLinkedEdges(bc);
    BuildGraphLinkedManifests(bc);
    BuildGraphLinkedComplete(bc);
    forall n, t | DepEdge(bc, n, t) ensures n in r.items && t in r.items[n] {
      var y, x :|
        y in bc.order && x in bc.order && y in IdsOf(bc.images) && x in IdsOf(bc.images) &&
        y in bc.deps && x in bc.deps[y] && n in NodesOf(bc, y).images && t in NodesOf(bc, x).Targets();
      assert Linked(bc, r, y, x);
      assert t in Elems(r.items[n]);
    }
  }

  // ---------------------------------------------------------------------
  // The edges of the corrected planner, and no others

  /** `n -> t` is the edge from the manifest of an image to one of that
      image's per-architecture images. */
  predicate ManifestEdge(bc: BoundConfig, n: OciNode, t: OciNode) {
    exists x :: x in bc.order && x in IdsOf(bc.images) && NodesOf(bc, x).manifest == Some(n) && t in NodesOf(bc, x).images
  }

  /** `n -> t` is an edge from an image node of `y` to what the dependents
      of `x` depend on, where `x` is a dependency of `y`. */
  predicate DepEdge(bc: BoundConfig, n: OciNode, t: OciNode) {
    exists y, x ::
      y in bc.order && x in bc.order && y in IdsOf(bc.images) && x in IdsOf(bc.images) &&
      y in bc.deps && x in bc.deps[y] && n in NodesOf(bc, y).images && t in NodesOf(bc, x).Targets()
  }

  /** Every edge of `g` is a manifest edge or a dependency edge. */
  predicate EdgesExplained(bc: BoundConfig, g: OciGraph) {
    forall n, t :: n in g.items && t in g.items[n] ==> ManifestEdge(bc, n, t) || DepEdge(bc, n, t)
  }

  /** The manifest of the image with id `x`, if it has one, lists every
      image of `x`. */
  predicate ManifestListed(bc: BoundConfig, g: OciGraph, x: string)
    requires x in IdsOf(bc.images)
  {
    NodesOf(bc, x).manifest.Some? ==>
      NodesOf(bc, x).manifest.value in g.items &&
      Elems(NodesOf(bc, x).images) <= Elems(g.items[NodesOf(bc, x).manifest.value])
  }

  lemma ManifestListedGrows(bc: BoundConfig, g: OciGraph, h: OciGraph, x: string)
    requires x in IdsOf(bc.images) && Grows(g, h) && ManifestListed(bc, g, x)
    ensures ManifestListed(bc, h, x)
  {
    if NodesOf(bc, x).manifest.Some? {
      var m := NodesOf(bc, x).manifest.value;
      forall t | t in Elems(g.items[m]) ensures t in Elems(h.items[m]) {
        var i :| 0 <= i < |g.items[m]| && g.items[m][i] == t;
        assert h.items[m][i] == t;
      }
    }
  }

  /** Adding the nodes of an image in build order adds only the edges from
      its manifest to its images. */
  lemma AddNodesExplained(bc: BoundConfig, g: OciGraph, x: string, g1: OciGraph)
    requires Planned(g) && x in bc.order && x in IdsOf(bc.images) && Fqn(ImageOf(bc, x)) !in Names(g)
    requires g1 == AddNodes(g, ImageOf(bc, x), BuildArgs(ImageOf(bc, x), bc.resolvers))
    requires EdgesExplained(bc, g)
    ensures EdgesExplained(bc, g1)
  {
    NewNodesExplained(bc, g, x, g1);
  }

  /** The same, from what adding the nodes does to each node. */
  lemma NewNodesExplained(bc: BoundConfig, g: OciGraph, x: string, g1: OciGraph)
    requires x in bc.order && x in IdsOf(bc.images) && EdgesExplained(bc, g)
    requires var e := NodesOf(bc, x);
      g1.items.Keys == g.items.Keys + Elems(e.images) + Opt(e.manifest) &&
      (forall n :: n in g.items ==> g1.items[n] == g.items[n]) &&
      (forall n :: n in e.images ==> g1.items[n] == []) &&
      (e.manifest.Some? ==> Elems(g1.items[e.manifest.value]) == Elems(e.images))
    ensures EdgesExplained(bc, g1)
  {
    var e := NodesOf(bc, x);
    forall n, t | n in g1.items && t in g1.items[n] ensures ManifestEdge(bc, n, t) || DepEdge(bc, n, t) {
      if n in g.items {
        assert t in g.items[n];
      } else if n !in e.images {
        assert n == e.manifest.value;
        assert t in Elems(g1.items[n]);
      }
    }
  }

  /** Adding the nodes of an image lists its images under its manifest. */
  lemma AddNodesListed(bc: BoundConfig, g: OciGraph, x: string, g1: OciGraph)
    requires Planned(g) && x in IdsOf(bc.images) && Fqn(ImageOf(bc, x)) !in Names(g)
    requires g1 == AddNodes(g, ImageOf(bc, x), BuildArgs(ImageOf(bc, x), bc.resolvers))
    ensures ManifestListed(bc, g1, x)
  {
  }

  /** The first pass adds only manifest edges. */
  lemma {:induction false} PlanAllExplained(bc: BoundConfig, g: OciGraph, ids: seq<string>)
    requires Planned(g) && forall x :: x in ids ==> x in bc.order && x in IdsOf(bc.images)
    requires EdgesExplained(bc, g)
    ensures EdgesExplained(bc, PlanAll(bc, g, ids))
    decreases |ids|
  {
    if |ids| > 0 {
      var b := ImageOf(bc, ids[0]);
      var g1 := if Fqn(b) in Names(g) then g else AddNodes(g, b, BuildArgs(b, bc.resolvers));
      if Fqn(b) !in Names(g) {
        AddNodesExplained(bc, g, ids[0], g1);
      }
      assert forall x :: x in ids[1..] ==> x in ids;
      PlanAllExplained(bc, g1, ids[1..]);
    }
  }

  /** When no two images share a node name, the first pass lists the
      images of every manifest under it. */
  lemma {:induction false} PlanAllManifests(bc: BoundConfig, g: OciGraph, ids: seq<string>)
    requires Planned(g) && forall x :: x in ids ==> x in IdsOf(bc.images)
    requires Distinct(ids) && NamesApart(bc, ids)
    requires forall x :: x in ids ==> FqnSet(AllNodes(NodesOf(bc, x))) !! Names(g)
    ensures forall x :: x in ids ==> ManifestListed(bc, PlanAll(bc, g, ids), x)
    decreases |ids|
  {
    if |ids| > 0 {
      var x0 := ids[0];
      var g1 := PlanFirst(bc, g, ids);
      AddNodesListed(bc, g, x0, g1);
      DistinctTail(ids);
      forall x | x in ids[1..] ensures FqnSet(AllNodes(NodesOf(bc, x))) !! Names(g1) {
        assert FqnSet(AllNodes(NodesOf(bc, x))) !! FqnSet(AllNodes(NodesOf(bc, x0)));
      }
      PlanAllManifests(bc, g1, ids[1..]);
      var r := PlanAll(bc, g1, ids[1..]);
      ManifestListedGrows(bc, g1, r, x0);
      forall x | x in ids ensures ManifestListed(bc, r, x) {
        if x != x0 { assert x in ids[1..]; }
      }
    }
  }

  /** Linking `y` to its dependency `x` adds only dependency edges. */
  lemma LinkOneExplained(bc: BoundConfig, g: OciGraph, y: string, x: string)
    requires Planned(g) && y in bc.order && x in bc.order && y in IdsOf(bc.images) && x in IdsOf(bc.images)
    requires y in bc.deps && x in bc.deps[y] && EdgesExplained(bc, g)
    ensures EdgesExplained(bc, LinkOne(bc, g, y, x))
  {
    if PlannedId(bc, g, y) && PlannedId(bc, g, x) {
      var r := LinkOne(bc, g, y, x);
      var created := NodesOf(bc, y).images;
      var targets := NodesOf(bc, x).Targets();
      assert r == AddEdges(g, created, targets);
      forall n, t | n in r.items && t in r.items[n] ensures ManifestEdge(bc, n, t) || DepEdge(bc, n, t) {
        assert t in Elems(r.items[n]);
        if t !in Elems(g.items[n]) {
          assert n in created && t in targets;
        }
      }
    }
  }

  lemma {:induction false} LinkToExplained(bc: BoundConfig, g: OciGraph, y: string, xs: seq<string>)
    requires Planned(g) && y in bc.order && y in IdsOf(bc.images) && y in bc.deps
    requires forall x :: x in xs ==> x in bc.order && x in IdsOf(bc.images) && x in bc.deps[y]
    requires EdgesExplained(bc, g)
    ensures EdgesExplained(bc, LinkTo(bc, g, y, xs))
    decreases |xs|
  {
    if |xs| > 0 {
      LinkOneExplained(bc, g, y, xs[0]);
      assert forall x :: x in xs[1..] ==> x in xs;
      LinkToExplained(bc, LinkOne(bc, g, y, xs[0]), y, xs[1..]);
    }
  }

  /** The second pass adds only dependency edges. */
  lemma {:induction false} LinkAllExplained(bc: BoundConfig, g: OciGraph, ys: seq<string>)
    requires WellFormed(bc) && Planned(g)
    requires forall y :: y in ys ==> y in bc.order
    requires forall x :: x in bc.order ==> x in IdsOf(bc.images)
    requires EdgesExplained(bc, g)
    ensures EdgesExplained(bc, LinkAll(bc, g, ys))
    decreases |ys|
  {
    if |ys| > 0 {
      var y0 := ys[0];
      assert y0 in bc.deps;
      var xs := Keep(bc.order, bc.deps[y0]);
      forall x | x in xs ensures x in bc.order && x in bc.deps[y0] {
        assert x in Elems(xs);
      }
      LinkToExplained(bc, g, y0, xs);
      assert forall y :: y in ys[1..] ==> y in ys;
      LinkAllExplained(bc, LinkTo(bc, g, y0, xs), ys[1..]);
    }
  }

  // ---------------------------------------------------------------------
  // The planner as written plans every node

  /** Every image in build order whose name some node of `g` has has all
      its nodes in `g`. */
  predicate NamedPlanned(bc: BoundConfig, g: OciGraph)
    requires forall x :: x in bc.order ==> x in IdsOf(bc.images)
  {
    forall x :: x in bc.order && Fqn(ImageOf(bc, x)) in Names(g) ==> PlannedId(bc, g, x)
  }

  /** The build order lists every image. */
  ghost predicate OrderCovers(bc: BoundConfig) {
    forall x :: x in IdsOf(bc.images) <==> x in bc.order
  }

  /** A graph with the same nodes plans the same images. */
  lemma NamedPlannedKeys(bc: BoundConfig, g: OciGraph, h: OciGraph)
    requires forall x :: x in bc.order ==> x in IdsOf(bc.images)
    requires h.items.Keys == g.items.Keys && NamedPlanned(bc, g)
    ensures NamedPlanned(bc, h)
  {
    assert Names(h) == Names(g);
  }

  /** Adding the nodes of an image keeps every named image fully planned. */
  lemma AddedPlans(bc: BoundConfig, g: OciGraph, g1: OciGraph, y: string)
    requires forall x :: x in bc.order ==> x in IdsOf(bc.images)
    requires y in bc.order && NamesApart(bc, bc.order) && NamedPlanned(bc, g)
    requires g1.items.Keys == g.items.Keys + AllNodes(NodesOf(bc, y))
    ensures NamedPlanned(bc, g1)
  {
    NamesOfKeys(g, g1, AllNodes(NodesOf(bc, y)));
    forall x | x in bc.order && Fqn(ImageOf(bc, x)) in Names(g1) ensures PlannedId(bc, g1, x) {
      if x != y {
        OtherPlanned(bc, g, g1, y, x);
      }
    }
  }

  /** An image other than the one just added whose name is now planned was
      planned already, since the two share no name. */
  lemma OtherPlanned(bc: BoundConfig, g: OciGraph, g1: OciGraph, y: string, x: string)
    requires forall z :: z in bc.order ==> z in IdsOf(bc.images)
    requires x in bc.order && y in bc.order && x != y
    requires NamesApart(bc, bc.order) && NamedPlanned(bc, g)
    requires g.items.Keys <= g1.items.Keys
    requires Names(g1) == Names(g) + FqnSet(AllNodes(NodesOf(bc, y)))
    requires Fqn(ImageOf(bc, x)) in Names(g1)
    ensures PlannedId(bc, g1, x)
  {
    var c := ImageOf(bc, x);
    TargetsIn(c, BuildArgs(c, bc.resolvers));
    assert FqnSet(AllNodes(NodesOf(bc, x))) !! FqnSet(AllNodes(NodesOf(bc, y)));
    assert Fqn(c) in Names(g);
  }

  /** `_extend_oci_graph` keeps every named image fully planned: the image
      it adds shares no name with another image. */
  lemma {:induction false} ExtendPlans(bc: BoundConfig, g: OciGraph, b: BoundImage)
    requires WellFormed(bc) && Planned(g) && b in bc.images
    requires OrderCovers(bc) && Separate(bc)
    requires b == ImageOf(bc, b.id) && NamedPlanned(bc, g)
    ensures NamedPlanned(bc, Extend(bc, g, b).0)
    decreases Unplanned(bc, g), 0
  {
    if Fqn(b) !in Names(g) {
      var g1 := ExtendStep(bc, g, b);
      AddedPlans(bc, g, g1, b.id);
      ExtendDependentsPlan(bc, g1, DependentsIn(IdsOf(bc.images), bc.deps, b.id), ExpandIn(bc, b).Targets());
    }
  }

  /** `_extend_oci_graph` on an image not yet named adds its nodes and then
      extends its dependents. */
  lemma ExtendStep(bc: BoundConfig, g: OciGraph, b: BoundImage) returns (g1: OciGraph)
    requires WellFormed(bc) && Planned(g) && b in bc.images && Fqn(b) !in Names(g)
    ensures Planned(g1) && g1.items.Keys == g.items.Keys + AllNodes(ExpandIn(bc, b))
    ensures Unplanned(bc, g1) < Unplanned(bc, g)
    ensures Elems(ExpandIn(bc, b).Targets()) <= g1.items.Keys
    ensures Extend(bc, g, b).0 ==
      ExtendDependents(bc, g1, DependentsIn(IdsOf(bc.images), bc.deps, b.id), ExpandIn(bc, b).Targets())
  {
    g1 := AddNodesShrinks(bc, g, b);
  }

  /** Adding the nodes of an image not yet named leaves fewer images to
      plan, and the nodes its dependents are made to depend on are among
      them. */
  lemma AddNodesShrinks(bc: BoundConfig, g: OciGraph, b: BoundImage) returns (g1: OciGraph)
    requires Planned(g) && b in bc.images && Fqn(b) !in Names(g)
    ensures g1 == AddNodes(g, b, BuildArgs(b, bc.resolvers))
    ensures g1.items.Keys == g.items.Keys + AllNodes(ExpandIn(bc, b))
    ensures Unplanned(bc, g1) < Unplanned(bc, g)
    ensures Elems(ExpandIn(bc, b).Targets()) <= g1.items.Keys
  {
    g1 := AddNodesKeys(g, b, BuildArgs(b, bc.resolvers));
    UnplannedShrinks(bc, g, g1, b);
  }

  /** The nodes `AddNodes` adds are those of the expansion, the targets
      among them, and the image's name becomes a node's name. */
  lemma AddNodesKeys(g: OciGraph, b: BoundImage, args: seq<(string, string)>) returns (g1: OciGraph)
    requires Planned(g) && Fqn(b) !in Names(g)
    ensures g1 == AddNodes(g, b, args)
    ensures g1.items.Keys == g.items.Keys + AllNodes(Expand(b, args))
    ensures Elems(Expand(b, args).Targets()) <= g1.items.Keys
    ensures Names(g) <= Names(g1) && Fqn(b) in Names(g1)
  {
    g1 := AddNodes(g, b, args);
    TargetsIn(b, args);
    GrowsNames(g, g1);
  }

  /** Naming one more image leaves fewer to plan. */
  lemma UnplannedShrinks(bc: BoundConfig, g: OciGraph, g1: OciGraph, b: BoundImage)
    requires b in bc.images && Fqn(b) !in Names(g) && Fqn(b) in Names(g1) && Names(g) <= Names(g1)
    ensures Unplanned(bc, g1) < Unplanned(bc, g)
  {
    assert Fqn(b) in Unplanned(bc, g) - Unplanned(bc, g1);
  }

  /** The loop over the dependents keeps every named image fully planned. */
  lemma {:induction false} ExtendDependentsPlan(bc: BoundConfig, g: OciGraph, ids: seq<string>, targets: seq<OciNode>)
    requires WellFormed(bc) && Planned(g)
    requires forall x :: x in ids ==> x in IdsOf(bc.images)
    requires Elems(targets) <= g.items.Keys
    requires OrderCovers(bc) && Separate(bc) && NamedPlanned(bc, g)
    ensures NamedPlanned(bc, ExtendDependents(bc, g, ids, targets))
    decreases Unplanned(bc, g), 1, |ids|
  {
    if |ids| > 0 {
      var d := GetImage(bc, ids[0]).value;
      ExtendPlans(bc, g, d);
      var (g1, created) := Extend(bc, g, d);
      var g2 := AddEdges(g1, created, targets);
      NamedPlannedKeys(bc, g1, g2);
      GrowsTransitive(g, g1, g2);
      GrowsNames(g, g2);
      assert forall x :: x in ids[1..] ==> x in ids;
      ExtendDependentsPlan(bc, g2, ids[1..], targets);
    }
  }

  /** The loop of `build_graph` keeps every named image fully planned. */
  lemma {:induction false} ExtendAllPlans(bc: BoundConfig, g: OciGraph, ids: seq<string>)
    requires WellFormed(bc) && Planned(g)
    requires forall x :: x in ids ==> x in IdsOf(bc.images)
    requires OrderCovers(bc) && Separate(bc) && NamedPlanned(bc, g)
    ensures NamedPlanned(bc, ExtendAll(bc, g, ids))
    decreases |ids|
  {
    if |ids| > 0 {
      var b := GetImage(bc, ids[0]).value;
      ExtendPlans(bc, g, b);
      assert forall x :: x in ids[1..] ==> x in ids;
      ExtendAllPlans(bc, Extend(bc, g, b).0, ids[1..]);
    }
  }

  /** When the build order lists every image and no two images share a node
      name, `build_graph` as written plans every node of every image: its
      per-architecture images and manifest, or its one image. */
  lemma BuildGraphNodes(bc: BoundConfig)
    requires WellFormed(bc) && OrderCovers(bc) && Separate(bc)
    ensures forall x :: x in bc.order ==> PlannedId(bc, BuildGraph(bc), x)
  {
    var g0: OciGraph := Empty();
    assert Names(g0) == {};
    ExtendAllPlans(bc, g0, bc.order);
  }
}
