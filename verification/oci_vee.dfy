/** A configuration on which `build_graph` drops a dependency: image `c` is
    built from both `a` and `b`, which are independent. Planning `a` plans
    its dependent `c` and links `c` to `a`; planning `b` then finds `c`
    planned already, so `c` is never linked to `b`, and the build of `c`
    need not wait for `b`. */
module OciVee {
  import opened Wrappers
  import opened Seqs
  import opened Dicts
  import opened Templates
  import opened BoundConfigs
  import opened Oci
  import opened OciLinked

  function Img(x: string): BoundImage { BoundImage(x, "r", x, "t", ".", [], []) }
  function Node(x: string): OciNode { OciImage("r/" + x + ":t", ".", [], None, None) }

  const Vee: BoundConfig := BoundConfig([Img("a"), Img("b"), Img("c")],
    map["a" := {}, "b" := {}, "c" := {"a", "b"}], ["a", "b", "c"], map[])

  lemma ExpandImg(x: string)
    ensures Fqn(Img(x)) == "r/" + x + ":t"
    ensures ExpandIn(Vee, Img(x)) == Expansion([Node(x)], None)
  {
  }

  /** Distinct ids name distinct nodes. */
  lemma NamesDiffer(x: string, y: string)
    requires |x| == 1 && |y| == 1 && x != y
    ensures Fqn(Img(x)) != Fqn(Img(y)) && Node(x).fqn != Fqn(Img(y))
  {
    assert Fqn(Img(x))[2] == x[0] && Fqn(Img(y))[2] == y[0];
  }

  lemma NamesOne(g: OciGraph, n: OciNode)
    requires g.items.Keys == {n}
    ensures Names(g) == {n.fqn}
  {
    assert n in g.items;
  }

  lemma VeeShape()
    ensures IdsOf(Vee.images) == ["a", "b", "c"]
    ensures WellFormed(Vee)
    ensures GetImage(Vee, "a") == Some(Img("a")) && GetImage(Vee, "b") == Some(Img("b")) && GetImage(Vee, "c") == Some(Img("c"))
  {
    var ids := IdsOf(Vee.images);
    assert ids == ["a", "b", "c"];
    assert Elems(ids) == {"a", "b", "c"};
    VeeGet(ids, 0);
    VeeGet(ids, 1);
    VeeGet(ids, 2);
  }

  lemma VeeGet(ids: seq<string>, k: nat)
    requires ids == IdsOf(Vee.images) == ["a", "b", "c"] && k < 3
    ensures GetImage(Vee, ids[k]) == Some(Vee.images[k])
  {
    var j := FirstIn(ids, {ids[k]});
    assert j == k;
  }

  /** The dependents of each image, in image order. */
  lemma DependentsA(ids: seq<string>, m: map<string, set<string>>)
    requires ids == ["a", "b", "c"] && m == Vee.deps
    ensures DependentsIn(ids, m, "a") == ["c"]
  {
    assert "a" !in m["b"] && "a" in m["c"];
    assert ids[1..] == ["b", "c"] && ids[1..][1..] == ["c"] && ids[1..][1..][1..] == [];
  }

  lemma DependentsB(ids: seq<string>, m: map<string, set<string>>)
    requires ids == ["a", "b", "c"] && m == Vee.deps
    ensures DependentsIn(ids, m, "b") == ["c"]
  {
    assert "b" !in m["a"] && "b" in m["c"];
    assert ids[1..] == ["b", "c"] && ids[1..][1..] == ["c"] && ids[1..][1..][1..] == [];
  }

  lemma DependentsC(ids: seq<string>, m: map<string, set<string>>)
    requires ids == ["a", "b", "c"] && m == Vee.deps
    ensures DependentsIn(ids, m, "c") == []
  {
    assert "c" !in m["a"] && "c" !in m["b"];
    assert ids[1..] == ["b", "c"] && ids[1..][1..] == ["c"] && ids[1..][1..][1..] == [];
  }

  /** `c`, planned from scratch, is one node with no dependencies yet. */
  lemma ExtendLeaf(g: OciGraph)
    requires Planned(g) && Fqn(Img("c")) !in Names(g)
    ensures WellFormed(Vee) && Img("c") in Vee.images
    ensures var r := Extend(Vee, g, Img("c"));
      r.1 == [Node("c")] && Node("c") in r.0.items && r.0.items[Node("c")] == []
  {
    VeeShape();
    ExpandImg("c");
    DependentsC(["a", "b", "c"], Vee.deps);
  }

  /** Extending the dependents `["c"]` of an image, when `c` is not planned
      yet, makes `c` depend on that image's targets and nothing else. */
  lemma ExtendFirstDependent(g: OciGraph, targets: seq<OciNode>)
    requires Planned(g) && Fqn(Img("c")) !in Names(g) && Elems(targets) <= g.items.Keys
    ensures WellFormed(Vee) && "c" in IdsOf(Vee.images)
    ensures var r := ExtendDependents(Vee, g, ["c"], targets);
      Node("c") in r.items && Elems(r.items[Node("c")]) <= Elems(targets) && Fqn(Img("c")) in Names(r)
  {
    VeeShape();
    ExtendLeaf(g);
    var (g2, created) := Extend(Vee, g, Img("c"));
    var g3 := AddEdges(g2, created, targets);
    GrowsNames(g2, g3);
    assert ["c"][1..] == [];
    assert ExtendDependents(Vee, g, ["c"], targets) == ExtendDependents(Vee, g3, [], targets);
  }

  /** Planning `a` plans `c` as its dependent, depending on `a` alone. */
  lemma ExtendRoot(bc: BoundConfig, g0: OciGraph)
    requires bc == Vee && g0 == Empty()
    ensures WellFormed(bc) && Planned(g0) && Img("a") in bc.images
    ensures var g := Extend(bc, g0, Img("a")).0;
      Node("c") in g.items && Elems(g.items[Node("c")]) <= {Node("a")} && Fqn(Img("c")) in Names(g)
  {
    VeeShape();
    ExpandImg("a");
    DependentsA(["a", "b", "c"], Vee.deps);
    RootNodes();
    var g1 := AddNodes(Empty(), Img("a"), BuildArgs(Img("a"), Vee.resolvers));
    ExtendFirstDependent(g1, [Node("a")]);
  }

  /** Planning `a` from scratch puts `a`'s one node in the graph. */
  lemma RootNodes()
    ensures Planned(Empty<OciNode, seq<OciNode>>()) && Fqn(Img("a")) !in Names(Empty<OciNode, seq<OciNode>>())
    ensures var g := AddNodes(Empty(), Img("a"), BuildArgs(Img("a"), Vee.resolvers));
      g.items.Keys == {Node("a")} && Fqn(Img("c")) !in Names(g)
  {
    ExpandImg("a");
    var args := BuildArgs(Img("a"), Vee.resolvers);
    assert args == [];
    var g1 := AddNodes(Empty(), Img("a"), args);
    assert g1.items.Keys == {Node("a")};
    NamesOne(g1, Node("a"));
    NamesDiffer("a", "c");
  }

  /** Once `c` is planned, planning `b` or `c` leaves `c`'s dependencies alone. */
  lemma ExtendKeeps(g: OciGraph, x: string)
    requires x == "b" || x == "c"
    requires Planned(g) && Node("c") in g.items && Fqn(Img("c")) in Names(g)
    ensures WellFormed(Vee) && Img(x) in Vee.images
    ensures var r := Extend(Vee, g, Img(x)).0; Node("c") in r.items && r.items[Node("c")] == g.items[Node("c")]
  {
    VeeShape();
    if x == "b" && Fqn(Img("b")) !in Names(g) {
      PlanB(g);
    }
  }

  /** Planning `b` when `c` is already planned adds no edge to `c`. */
  lemma PlanB(g: OciGraph)
    requires Planned(g) && Node("c") in g.items && Fqn(Img("c")) in Names(g) && Fqn(Img("b")) !in Names(g)
    ensures WellFormed(Vee) && Img("b") in Vee.images
    ensures var r := Extend(Vee, g, Img("b")).0; Node("c") in r.items && r.items[Node("c")] == g.items[Node("c")]
  {
    VeeShape();
    ExpandImg("b");
    DependentsB(["a", "b", "c"], Vee.deps);
    var args := BuildArgs(Img("b"), Vee.resolvers);
    var g1 := AddNodes(g, Img("b"), args);
    GrowsNames(g, g1);
    var (g2, created) := Extend(Vee, g1, Img("c"));
    assert g2 == g1 && created == [];
    var g3 := AddEdges(g2, created, [Node("b")]);
    assert ExtendDependents(Vee, g1, ["c"], [Node("b")]) == ExtendDependents(Vee, g3, [], [Node("b")]);
  }

  /** `c` depends on `b`, yet the planned node of `c` depends on no node
      under `b`'s name. */
  lemma VeeLosesEdge()
    ensures WellFormed(Vee) && forall x :: x in Vee.order ==> x in IdsOf(Vee.images)
    ensures "b" in Vee.deps["c"]
    ensures var g := BuildGraph(Vee);
      Node("c") in g.items && Fqn(Img("b")) in Names(g) &&
      forall n :: n in g.items[Node("c")] ==> n.fqn != Fqn(Img("b"))
  {
    LosesEdge(Vee, Empty(), Vee.order);
  }

  lemma LosesEdge(bc: BoundConfig, g0: OciGraph, ids: seq<string>)
    requires bc == Vee && g0 == Empty() && ids == Vee.order
    ensures WellFormed(bc) && forall x :: x in ids ==> x in IdsOf(bc.images)
    ensures Planned(g0)
    ensures var g := ExtendAll(bc, g0, ids);
      Node("c") in g.items && Fqn(Img("b")) in Names(g) &&
      forall n :: n in g.items[Node("c")] ==> n.fqn != Fqn(Img("b"))
  {
    VeeShape();
    ExtendRoot(bc, g0);
    var g1 := Extend(bc, g0, Img("a")).0;
    ExtendKeeps(g1, "b");
    var g2 := Extend(bc, g1, Img("b")).0;
    GrowsNames(g1, g2);
    ExtendKeeps(g2, "c");
    var g3 := Extend(bc, g2, Img("c")).0;
    GrowsNames(g2, g3);
    assert Fqn(Img("b")) in Names(g3);
    NoEdgeToB(g3.items[Node("c")]);
    VeeBuild(bc, g0, ids);
  }

  lemma NoEdgeToB(ds: seq<OciNode>)
    requires Elems(ds) <= {Node("a")}
    ensures forall n :: n in ds ==> n.fqn != Fqn(Img("b"))
  {
    NamesDiffer("a", "b");
    forall n | n in ds ensures n.fqn != Fqn(Img("b")) {
      assert n in Elems(ds);
    }
  }

  /** `build_graph` on `Vee` plans `a`, then `b`, then `c`. */
  lemma VeeBuild(bc: BoundConfig, g0: OciGraph, ids: seq<string>)
    requires bc == Vee && g0 == Empty() && ids == Vee.order
    ensures WellFormed(bc) && forall x :: x in ids ==> x in IdsOf(bc.images)
    ensures Planned(g0) && Img("a") in bc.images && Img("b") in bc.images && Img("c") in bc.images
    ensures ExtendAll(bc, g0, ids) == Extend(bc, Extend(bc, Extend(bc, g0, Img("a")).0, Img("b")).0, Img("c")).0
  {
    VeeShape();
    var g1 := Extend(bc, g0, Img("a")).0;
    var g2 := Extend(bc, g1, Img("b")).0;
    var g3 := Extend(bc, g2, Img("c")).0;
    assert ids[0] == "a" && ids[1..][0] == "b" && ids[1..][1..] == ["c"] && |ids[1..][1..][1..]| == 0;
    ExtendAllStep(bc, g0, ids);
    ExtendAllStep(bc, g1, ids[1..]);
    ExtendAllStep(bc, g2, ids[1..][1..]);
  }

  lemma ExtendAllStep(bc: BoundConfig, g: OciGraph, ids: seq<string>)
    requires WellFormed(bc) && Planned(g) && |ids| > 0
    requires forall x :: x in ids ==> x in IdsOf(bc.images)
    ensures GetImage(bc, ids[0]).Some?
    ensures ExtendAll(bc, g, ids) == ExtendAll(bc, Extend(bc, g, GetImage(bc, ids[0]).value).0, ids[1..])
  {
  }

  /** Each image of `Vee` plans as one node named after it. */
  lemma VeeNodes(bc: BoundConfig, x: string)
    requires bc == Vee && x in bc.order
    ensures x in IdsOf(bc.images) && |x| == 1
    ensures NodesOf(bc, x) == Expansion([Node(x)], None)
    ensures FqnSet(AllNodes(NodesOf(bc, x))) == {Fqn(Img(x))}
  {
    VeeShape();
    ExpandImg(x);
    assert AllNodes(NodesOf(bc, x)) == {Node(x)};
  }

  lemma VeeSeparate(bc: BoundConfig)
    requires bc == Vee
    ensures WellFormed(bc) && forall x :: x in bc.order ==> x in IdsOf(bc.images)
    ensures Separate(bc)
  {
    VeeShape();
    forall x, y | x in bc.order && y in bc.order && x != y
      ensures FqnSet(AllNodes(NodesOf(bc, x))) !! FqnSet(AllNodes(NodesOf(bc, y)))
    {
      VeeNodes(bc, x);
      VeeNodes(bc, y);
      NamesDiffer(x, y);
    }
  }

  /** Linking every dependency makes the node of `c` depend on the nodes of
      both `a` and `b`. */
  lemma VeeLinked()
    ensures WellFormed(Vee) && forall x :: x in Vee.order ==> x in IdsOf(Vee.images)
    ensures var g := BuildGraphLinked(Vee);
      Node("c") in g.items && Node("a") in g.items[Node("c")] && Node("b") in g.items[Node("c")]
  {
    LinkedIn(Vee);
  }

  lemma LinkedIn(bc: BoundConfig)
    requires bc == Vee
    ensures WellFormed(bc) && forall x :: x in bc.order ==> x in IdsOf(bc.images)
    ensures var g := BuildGraphLinked(bc);
      Node("c") in g.items && Node("a") in g.items[Node("c")] && Node("b") in g.items[Node("c")]
  {
    VeeSeparate(bc);
    BuildGraphLinkedComplete(bc);
    var g := BuildGraphLinked(bc);
    assert "a" in bc.deps["c"] && "b" in bc.deps["c"];
    LinkedNode(bc, g, "a");
    LinkedNode(bc, g, "b");
  }

  lemma LinkedNode(bc: BoundConfig, g: OciGraph, x: string)
    requires bc == Vee && (x == "a" || x == "b")
    requires "c" in IdsOf(bc.images) && x in IdsOf(bc.images) && Linked(bc, g, "c", x)
    ensures Node("c") in g.items && Node(x) in g.items[Node("c")]
  {
    VeeNodes(bc, x);
    VeeNodes(bc, "c");
    LinkedSingle(bc, g, "c", x, Node("c"), Node(x));
  }

  /** Between two images of one node each, a link is one edge. */
  lemma LinkedSingle(bc: BoundConfig, g: OciGraph, y: string, x: string, ny: OciNode, nx: OciNode)
    requires y in IdsOf(bc.images) && x in IdsOf(bc.images) && Linked(bc, g, y, x)
    requires NodesOf(bc, y).images == [ny] && NodesOf(bc, x).Targets() == [nx]
    ensures ny in g.items && nx in g.items[ny]
  {
    assert ny in NodesOf(bc, y).images;
    assert nx in Elems(NodesOf(bc, x).Targets());
    assert nx in Elems(g.items[ny]);
  }
}
