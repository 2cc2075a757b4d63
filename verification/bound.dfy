/** `Config.bind` and `BoundConfig` (config.py): every image of a config
    bound against one chain (the command line, then the config's group),
    the resolvers of the images resolved to their fully qualified names, and
    the dependency graph among the images with its inverse. */
module BoundConfigs {
  import opened Wrappers
  import opened Errors
  import opened Seqs
  import opened Binding
  import opened Graphs
  import opened Templates
  import opened Configs

  // ---------------------------------------------------------------------
  // The bind chain

  /** The group templates, in document order. */
  function GroupsOf(ts: seq<Template>): (r: seq<GroupTemplate>)
    ensures forall g :: g in r <==> Group(g) in ts
  {
    if |ts| == 0 then []
    else
      assert forall t :: t in ts <==> t == ts[0] || t in ts[1..];
      (if ts[0].Group? then [ts[0].group] else []) + GroupsOf(ts[1..])
  }

  /** The chain of `Config.bind`: the command line first, then the source of
      the only group, bound against the command line alone.
      `NotImplementedError` when there is more than one group. */
  function BindChainOf(ts: seq<Template>, cli: BindSource): (r: Result<Chain, Error>)
    ensures |GroupsOf(ts)| > 1 ==> r == Failure(MultipleGroups)
    ensures r.Success? ==> |r.value| == 1 + |GroupsOf(ts)| && r.value[0] == cli
    ensures r.Success? && |r.value| == 2 ==>
      r.value[1].sourceName == GroupsOf(ts)[0].id && r.value[1].architectures.Some? &&
      GroupBind(GroupsOf(ts)[0], [cli]) == Success(r.value[1])
    ensures r.Failure? && |GroupsOf(ts)| == 1 ==> GroupBind(GroupsOf(ts)[0], [cli]) == Failure(r.error)
  {
    var groups := GroupsOf(ts);
    if |groups| > 1 then Failure(MultipleGroups)
    else if |groups| == 0 then Success([cli])
    else
      var source :- GroupBind(groups[0], [cli]);
      Success([cli, source])
  }

  /** First wins along the chain an image binds against: a value the
      command line gives is used; failing that the group's; failing that
      the image defaults `registry=localhost` and `tag=latest`. */
  lemma ChainPrecedence(chain: Chain, cli: BindSource, name: string)
    requires |chain| > 0 && chain[0] == cli
    ensures var c := chain + [ImageDefaults];
      (LinkValue(cli.arguments, name).Some? ==>
        Lookup(c, name) == Some(BoundValue(cli.sourceName, LinkValue(cli.arguments, name).value))) &&
      (|chain| == 2 && LinkValue(cli.arguments, name).None? && LinkValue(chain[1].arguments, name).Some? ==>
        Lookup(c, name) == Some(BoundValue(chain[1].sourceName, LinkValue(chain[1].arguments, name).value))) &&
      ((forall k :: 0 <= k < |chain| ==> LinkValue(chain[k].arguments, name).None?) && name == "registry" ==>
        Lookup(c, name) == Some(BoundValue("__image_defaults__", "localhost"))) &&
      ((forall k :: 0 <= k < |chain| ==> LinkValue(chain[k].arguments, name).None?) && name == "tag" ==>
        Lookup(c, name) == Some(BoundValue("__image_defaults__", "latest")))
  {
    var c := chain + [ImageDefaults];
    if LinkValue(cli.arguments, name).Some? {
      LookupFirst(c, name, 0);
    } else if |chain| == 2 && LinkValue(chain[1].arguments, name).Some? {
      LookupFirst(c, name, 1);
    }
    if (forall k :: 0 <= k < |chain| ==> LinkValue(chain[k].arguments, name).None?) && name in {"registry", "tag"} {
      var args := ImageDefaults.arguments;
      if name == "registry" {
        LinkValueFirst(args, name, 0);
      } else {
        LinkValueFirst(args, name, 1);
      }
      LookupFirst(c, name, |chain|);
    }
  }

  /** The architectures an image is built for: the command line's when it
      has an opinion, else the group's, else none. */
  lemma ChainArchPrecedence(chain: Chain, cli: BindSource)
    requires |chain| > 0 && chain[0] == cli
    requires |chain| == 2 ==> chain[1].architectures.Some?
    ensures var c := chain + [ImageDefaults];
      (cli.architectures.Some? ==> ChainArches(c) == cli.architectures.value) &&
      (cli.architectures.None? && |chain| == 2 ==> ChainArches(c) == chain[1].architectures.value) &&
      (cli.architectures.None? && |chain| == 1 ==> ChainArches(c) == [])
  {
    var c := chain + [ImageDefaults];
    if cli.architectures.Some? {
      ArchitecturesFirst(c, 0);
    } else if |chain| == 2 {
      ArchitecturesFirst(c, 1);
    }
  }

  // ---------------------------------------------------------------------
  // Binding the images

  /** The ids of the images, in reverse build order: the order in which
      `Config.bind` binds them. Every image of a valid config is there, once. */
  function BoundIds(c: Config): (r: seq<string>)
    requires Valid(c)
    ensures Distinct(r) && Elems(r) == ImageIds(c.templates)
  {
    ReverseElems(c.order);
    assert ImageIds(c.templates) <= Elems(Ids(c.templates)) by {
      forall x | x in ImageIds(c.templates) ensures x in Elems(Ids(c.templates)) {
        var i :| 0 <= i < |c.templates| && c.templates[i].Image? && c.templates[i].Id() == x;
        assert Ids(c.templates)[i] == x;
      }
    }
    Keep(Reverse(c.order), ImageIds(c.templates))
  }

  /** The image template with id `x`. */
  function ImageOf(ts: seq<Template>, x: string): (t: ImageTemplate)
    requires Distinct(Ids(ts)) && x in ImageIds(ts)
    ensures t.id == x && Image(t) in ts
  {
    ImageIdIsImage(ts, x);
    At(ts, x).image
  }

  /** The images with ids `ids`, each bound against the chain. */
  function BindImages(ts: seq<Template>, ids: seq<string>, chain: Chain): (r: Result<seq<BoundImage>, Error>)
    requires Distinct(Ids(ts)) && Elems(ids) <= ImageIds(ts)
    ensures r.Success? <==> forall i :: 0 <= i < |ids| ==> ImageBind(ImageOf(ts, ids[i]), chain).Success?
    ensures r.Success? ==> |r.value| == |ids|
    ensures r.Success? ==> forall i :: 0 <= i < |ids| ==>
      r.value[i].id == ids[i] && ImageBind(ImageOf(ts, ids[i]), chain) == Success(r.value[i])
  {
    if |ids| == 0 then Success([])
    else
      assert forall i :: 1 <= i < |ids| ==> ids[i] == ids[1..][i - 1];
      assert ids[0] in Elems(ids);
      var b :- ImageBind(ImageOf(ts, ids[0]), chain);
      var rest :- BindImages(ts, ids[1..], chain);
      Success([b] + rest)
  }

  lemma BindImagesIds(ts: seq<Template>, ids: seq<string>, chain: Chain)
    requires Distinct(Ids(ts)) && Elems(ids) <= ImageIds(ts)
    requires BindImages(ts, ids, chain).Success?
    ensures IdsOf(BindImages(ts, ids, chain).value) == ids
  {
  }

  /** The ids of a sequence of bound images, in order. */
  function IdsOf(bs: seq<BoundImage>): (r: seq<string>)
    ensures |r| == |bs| && forall i :: 0 <= i < |bs| ==> r[i] == bs[i].id
  {
    seq(|bs|, i requires 0 <= i < |bs| => bs[i].id)
  }

  // ---------------------------------------------------------------------
  // Resolving the resolvers

  /** The loop of `Config.bind` that resolves, image by image, the resolver
      of each bound image to its fully qualified name: a `KeyError` for an
      image without a resolver, `RuntimeError` for one already resolved. */
  function ResolveAll(resolvers: map<string, IdResolver>, bs: seq<BoundImage>): (r: Result<map<string, IdResolver>, Error>)
    ensures r.Success? <==> (Distinct(IdsOf(bs)) &&
      forall i :: 0 <= i < |bs| ==> bs[i].id in resolvers && resolvers[bs[i].id].resolved.None?)
    ensures r.Success? ==> r.value.Keys == resolvers.Keys
    ensures r.Success? ==> forall x :: x in resolvers && x !in IdsOf(bs) ==> r.value[x] == resolvers[x]
    ensures r.Success? ==> forall i :: 0 <= i < |bs| ==>
      r.value[bs[i].id] == IdResolver(resolvers[bs[i].id].identifier, Some(Fqn(bs[i])))
    ensures r.Failure? ==> r.error.KeyError? || r.error.AlreadyResolved?
    decreases |bs|
  {
    if |bs| == 0 then Success(resolvers)
    else
      var x := bs[0].id;
      if x !in resolvers then Failure(KeyError(x))
      else
        var resolved :- Resolve(resolvers[x], Fqn(bs[0]));
        var r := ResolveAll(resolvers[x := resolved], bs[1..]);
        ResolveAllStep(resolvers, bs, resolved, r);
        r
  }

  lemma ResolveAllStep(resolvers: map<string, IdResolver>, bs: seq<BoundImage>, resolved: IdResolver,
                       r: Result<map<string, IdResolver>, Error>)
    requires |bs| > 0 && bs[0].id in resolvers && resolvers[bs[0].id].resolved.None?
    requires resolved == IdResolver(resolvers[bs[0].id].identifier, Some(Fqn(bs[0])))
    requires var m := resolvers[bs[0].id := resolved];
      (r.Success? <==> (Distinct(IdsOf(bs[1..])) &&
        forall i :: 0 <= i < |bs[1..]| ==> bs[1..][i].id in m && m[bs[1..][i].id].resolved.None?)) &&
      (r.Success? ==> r.value.Keys == m.Keys) &&
      (r.Success? ==> forall x :: x in m && x !in IdsOf(bs[1..]) ==> r.value[x] == m[x]) &&
      (r.Success? ==> forall i :: 0 <= i < |bs[1..]| ==>
        r.value[bs[1..][i].id] == IdResolver(m[bs[1..][i].id].identifier, Some(Fqn(bs[1..][i]))))
    ensures r.Success? <==> (Distinct(IdsOf(bs)) &&
      forall i :: 0 <= i < |bs| ==> bs[i].id in resolvers && resolvers[bs[i].id].resolved.None?)
    ensures r.Success? ==> r.value.Keys == resolvers.Keys
    ensures r.Success? ==> forall x :: x in resolvers && x !in IdsOf(bs) ==> r.value[x] == resolvers[x]
    ensures r.Success? ==> forall i :: 0 <= i < |bs| ==>
      r.value[bs[i].id] == IdResolver(resolvers[bs[i].id].identifier, Some(Fqn(bs[i])))
  {
    ResolveAllStepOk(resolvers, bs, resolved, r.Success?);
    if r.Success? {
      ResolveAllStepValues(resolvers, bs, bs[1..], resolvers[bs[0].id := resolved], r.value);
    }
  }

  lemma IdsOfCons(bs: seq<BoundImage>)
    requires |bs| > 0
    ensures IdsOf(bs) == [bs[0].id] + IdsOf(bs[1..])
  {
    assert forall i :: 1 <= i < |bs| ==> IdsOf(bs)[i] == IdsOf(bs[1..])[i - 1];
  }

  /** The resolvers `ResolveAll` leaves, taken one image at a time: `m` is
      the map after the first image, `t` the images after it. */
  lemma ResolveAllStepValues(resolvers: map<string, IdResolver>, bs: seq<BoundImage>, t: seq<BoundImage>,
                             m: map<string, IdResolver>, rest: map<string, IdResolver>)
    requires |bs| > 0 && t == bs[1..] && Distinct(IdsOf(bs))
    requires forall i :: 0 <= i < |bs| ==> bs[i].id in resolvers
    requires m == resolvers[bs[0].id := IdResolver(resolvers[bs[0].id].identifier, Some(Fqn(bs[0])))]
    requires rest.Keys == m.Keys
    requires forall x :: x in m && x !in IdsOf(t) ==> rest[x] == m[x]
    requires forall i :: 0 <= i < |t| ==> rest[t[i].id] == IdResolver(m[t[i].id].identifier, Some(Fqn(t[i])))
    ensures rest.Keys == resolvers.Keys
    ensures forall x :: x in resolvers && x !in IdsOf(bs) ==> rest[x] == resolvers[x]
    ensures forall i :: 0 <= i < |bs| ==>
      rest[bs[i].id] == IdResolver(resolvers[bs[i].id].identifier, Some(Fqn(bs[i])))
  {
    var x := bs[0].id;
    IdsOfCons(bs);
    DistinctTail(IdsOf(bs));
    assert IdsOf(bs)[1..] == IdsOf(t);
    forall i | 1 <= i < |bs| ensures rest[bs[i].id] == IdResolver(resolvers[bs[i].id].identifier, Some(Fqn(bs[i]))) {
      assert bs[i] == t[i - 1];
      assert bs[i].id == IdsOf(bs)[i] != x;
    }
  }

  /** The success condition of `ResolveAll` taken one image at a time. */
  lemma ResolveAllStepOk(resolvers: map<string, IdResolver>, bs: seq<BoundImage>, resolved: IdResolver, ok: bool)
    requires |bs| > 0 && bs[0].id in resolvers && resolvers[bs[0].id].resolved.None?
    requires resolved.resolved.Some?
    requires var m := resolvers[bs[0].id := resolved];
      ok <==> (Distinct(IdsOf(bs[1..])) &&
        forall i :: 0 <= i < |bs[1..]| ==> bs[1..][i].id in m && m[bs[1..][i].id].resolved.None?)
    ensures ok <==> (Distinct(IdsOf(bs)) &&
      forall i :: 0 <= i < |bs| ==> bs[i].id in resolvers && resolvers[bs[i].id].resolved.None?)
  {
    var x := bs[0].id;
    var m := resolvers[x := resolved];
    assert IdsOf(bs) == [x] + IdsOf(bs[1..]);
    assert forall i :: 1 <= i < |bs| ==> bs[i] == bs[1..][i - 1];
    if ok {
      forall i | 0 <= i < |bs[1..]| ensures bs[1..][i].id != x {
        assert m[bs[1..][i].id].resolved.None?;
      }
    }
  }

  // ---------------------------------------------------------------------
  // BoundConfig

  /** `BoundConfig`: the bound images in binding order, the dependency graph
      among them, its build order, and the resolvers as `bind` left them. */
  datatype BoundConfig = BoundConfig(
    images: seq<BoundImage>,
    deps: Graph<string>,
    order: seq<string>,
    resolvers: map<string, IdResolver>)

  /** The graph `Config.bind` hands to `BoundConfig`: each image's id mapped
      to its dependencies. */
  function ImageGraph(c: Config): Graph<string> {
    Restrict(c.graph, ImageIds(c.templates))
  }

  /** In a valid config the images are closed under dependencies ... */
  lemma ImageIdsClosed(c: Config)
    requires Valid(c)
    ensures DepClosed(c.graph, ImageIds(c.templates))
  {
    var ts := c.templates;
    forall x | x in ImageIds(ts) ensures x in c.graph && c.graph[x] <= ImageIds(ts) {
      var i :| 0 <= i < |ts| && ts[i].Image? && ts[i].Id() == x;
      assert Ids(ts)[i] == x;
    }
  }

  /** ... so the image graph keeps every dependency of every image. */
  lemma ImageGraphDeps(c: Config)
    requires Valid(c)
    ensures ImageGraph(c).Keys == ImageIds(c.templates) && Closed(ImageGraph(c))
    ensures forall x :: x in ImageGraph(c) ==> ImageGraph(c)[x] == c.graph[x]
  {
    ImageIdsClosed(c);
    RestrictClosed(c.graph, ImageIds(c.templates));
  }

  /** Cutting a graph down to a dependency-closed set loses no edge. */
  lemma RestrictClosed<T>(g: Graph<T>, keep: set<T>)
    requires DepClosed(g, keep)
    ensures Restrict(g, keep).Keys == keep && Closed(Restrict(g, keep))
    ensures forall x :: x in Restrict(g, keep) ==> Restrict(g, keep)[x] == g[x]
  {
    var r := Restrict(g, keep);
    forall x | x in r ensures r[x] == g[x] {
      assert r[x] == g[x] * keep;
    }
  }

  /** The build order of the images: some topological order of the image
      graph, which exists because the config's graph has one. */
  function BoundOrder(c: Config): (r: seq<string>)
    requires Valid(c)
    ensures IsOrder(ImageGraph(c), r)
  {
    var g := ImageGraph(c);
    ImageGraphDeps(c);
    ImageIdsClosed(c);
    RestrictOrder(c.graph, c.order, ImageIds(c.templates));
    TopoSortComplete(g, BoundIds(c));
    TopoSort(g, BoundIds(c)).value
  }

  /** `Config.bind(cli)`: builds the chain, binds every image in reverse
      build order, resolves the resolver of each to its fully qualified
      name, and hands the image graph to `BoundConfig`. */
  function Bind(c: Config, cli: BindSource): (r: Result<BoundConfig, Error>)
    requires Valid(c)
    ensures r.Success? ==> IdsOf(r.value.images) == BoundIds(c)
    ensures r.Success? ==> r.value.deps == ImageGraph(c) && IsOrder(r.value.deps, r.value.order)
    ensures r.Success? ==> r.value.resolvers.Keys == ImageIds(c.templates)
    ensures r.Success? ==> forall i :: 0 <= i < |r.value.images| ==> r.value.images[i].id in r.value.resolvers
    ensures r.Success? ==> forall i :: 0 <= i < |r.value.images| ==>
      r.value.resolvers[r.value.images[i].id] == IdResolver(r.value.images[i].id, Some(Fqn(r.value.images[i])))
  {
    var chain :- BindChainOf(c.templates, cli);
    var images :- BindImages(c.templates, BoundIds(c), chain);
    var resolvers :- ResolveAll(c.resolvers, images);
    ResolvedAll(c, images, resolvers);
    Success(BoundConfig(images, ImageGraph(c), BoundOrder(c), resolvers))
  }

  /** What resolving the bound images of a valid config leaves: the
      resolver of each image resolved to its fully qualified name. */
  lemma ResolvedAll(c: Config, bs: seq<BoundImage>, resolvers: map<string, IdResolver>)
    requires Valid(c) && IdsOf(bs) == BoundIds(c)
    requires ResolveAll(c.resolvers, bs) == Success(resolvers)
    ensures resolvers.Keys == ImageIds(c.templates)
    ensures forall i :: 0 <= i < |bs| ==> resolvers[bs[i].id] == IdResolver(bs[i].id, Some(Fqn(bs[i])))
  {
    forall i | 0 <= i < |bs| ensures c.resolvers[bs[i].id].identifier == bs[i].id {
      assert bs[i].id in c.resolvers;
    }
  }

  /** The parts `Bind` is made of, named. */
  lemma BindParts(c: Config, cli: BindSource) returns (chain: Chain)
    requires Valid(c) && Bind(c, cli).Success?
    ensures BindChainOf(c.templates, cli) == Success(chain)
    ensures BindImages(c.templates, BoundIds(c), chain) == Success(Bind(c, cli).value.images)
    ensures ResolveAll(c.resolvers, Bind(c, cli).value.images) == Success(Bind(c, cli).value.resolvers)
  {
    assert BindChainOf(c.templates, cli).Success?;
    chain := BindChainOf(c.templates, cli).value;
    var bs := BindImages(c.templates, BoundIds(c), chain);
    assert bs.Success?;
    var rs := ResolveAll(c.resolvers, bs.value);
    assert rs.Success?;
    assert Bind(c, cli) == Success(BoundConfig(bs.value, ImageGraph(c), BoundOrder(c), rs.value));
  }

  /** After `bind` every resolver of the config is resolved, and the config
      with its resolvers so updated is still valid. */
  lemma BindResolves(c: Config, cli: BindSource)
    requires Valid(c) && Bind(c, cli).Success?
    ensures var bc := Bind(c, cli).value;
      (forall x :: x in bc.resolvers ==> bc.resolvers[x].resolved.Some?) &&
      Valid(c.(resolvers := bc.resolvers))
  {
    var bc := Bind(c, cli).value;
    BoundResolved(c, bc);
    ValidWithResolvers(c, bc.resolvers);
  }

  /** The resolvers `Bind` leaves are all resolved, each keyed by its own
      identifier. */
  lemma BoundResolved(c: Config, bc: BoundConfig)
    requires Valid(c) && IdsOf(bc.images) == BoundIds(c) && bc.resolvers.Keys == ImageIds(c.templates)
    requires forall i :: 0 <= i < |bc.images| ==>
      bc.resolvers[bc.images[i].id] == IdResolver(bc.images[i].id, Some(Fqn(bc.images[i])))
    ensures forall x :: x in bc.resolvers ==> bc.resolvers[x].identifier == x && bc.resolvers[x].resolved.Some?
  {
    forall x | x in bc.resolvers ensures bc.resolvers[x].identifier == x && bc.resolvers[x].resolved.Some? {
      assert x in Elems(BoundIds(c));
      var i :| 0 <= i < |bc.images| && IdsOf(bc.images)[i] == x;
    }
  }

  /** A valid config stays valid with other resolvers for the same images,
      each keyed by its own identifier. */
  lemma ValidWithResolvers(c: Config, rs: map<string, IdResolver>)
    requires Valid(c) && rs.Keys == ImageIds(c.templates)
    requires forall x :: x in rs ==> rs[x].identifier == x
    ensures Valid(c.(resolvers := rs))
  {
  }

  /** On a config none of whose resolvers is resolved yet, `bind` succeeds
      as soon as the chain and every image bind; `BindParts` is the converse. */
  lemma BindFresh(c: Config, cli: BindSource)
    requires Valid(c) && forall x :: x in c.resolvers ==> c.resolvers[x].resolved.None?
    requires BindChainOf(c.templates, cli).Success?
    requires BindImages(c.templates, BoundIds(c), BindChainOf(c.templates, cli).value).Success?
    ensures Bind(c, cli).Success?
  {
    var chain := BindChainOf(c.templates, cli).value;
    var bs := BindImages(c.templates, BoundIds(c), chain).value;
    BindImagesIds(c.templates, BoundIds(c), chain);
    FreshResolveAll(c.resolvers, bs);
    BindOfParts(c, cli, chain, bs, ResolveAll(c.resolvers, bs).value);
  }

  /** `Bind` put together from its parts: the converse of `BindParts`. */
  lemma BindOfParts(c: Config, cli: BindSource, chain: Chain, bs: seq<BoundImage>, rs: map<string, IdResolver>)
    requires Valid(c) && BindChainOf(c.templates, cli) == Success(chain)
    requires BindImages(c.templates, BoundIds(c), chain) == Success(bs)
    requires ResolveAll(c.resolvers, bs) == Success(rs)
    ensures Bind(c, cli) == Success(BoundConfig(bs, ImageGraph(c), BoundOrder(c), rs))
  {
  }

  lemma FreshResolveAll(resolvers: map<string, IdResolver>, bs: seq<BoundImage>)
    requires forall x :: x in resolvers ==> resolvers[x].resolved.None?
    requires Distinct(IdsOf(bs)) && Elems(IdsOf(bs)) <= resolvers.Keys
    ensures ResolveAll(resolvers, bs).Success?
  {
    forall i | 0 <= i < |bs| ensures bs[i].id in resolvers {
      assert IdsOf(bs)[i] in Elems(IdsOf(bs));
    }
  }

  /** A config can be bound once: binding it again, once its resolvers are
      resolved, raises for the first image (`cannot resolve id twice`). */
  lemma BindTwice(c: Config, cli: BindSource)
    requires Valid(c) && Bind(c, cli).Success? && |BoundIds(c)| > 0
    ensures Valid(c.(resolvers := Bind(c, cli).value.resolvers))
    ensures Bind(c.(resolvers := Bind(c, cli).value.resolvers), cli) == Failure(AlreadyResolved(BoundIds(c)[0]))
  {
    var chain := BindParts(c, cli);
    BindResolves(c, cli);
    var bc := Bind(c, cli).value;
    var c2 := c.(resolvers := bc.resolvers);
    var bs := bc.images;
    assert BoundIds(c2) == BoundIds(c);
    var x := bs[0].id;
    assert IdsOf(bs)[0] == x;
    assert bc.resolvers[x] == IdResolver(x, Some(Fqn(bs[0])));
    assert ResolveAll(bc.resolvers, bs) == Failure(AlreadyResolved(x));
  }

  /** A build argument that `inject_resolver` turned into a resolver renders,
      after `bind`, as the fully qualified name of the image it names. */
  lemma BindRefFqn(c: Config, cli: BindSource, i: nat, j: nat)
    requires Valid(c) && Bind(c, cli).Success?
    requires i < |Bind(c, cli).value.images| && j < |Bind(c, cli).value.images[i].args|
    requires Bind(c, cli).value.images[i].args[j].1.Ref?
    ensures var bc := Bind(c, cli).value;
      var x := bc.images[i].args[j].1.id;
      x in IdsOf(bc.images) &&
      forall k :: 0 <= k < |bc.images| && bc.images[k].id == x ==>
        BuildArgs(bc.images[i], bc.resolvers)[j].1 == Fqn(bc.images[k])
  {
    var chain := BindParts(c, cli);
    var bc := Bind(c, cli).value;
    var x := bc.images[i].args[j].1.id;
    assert IdsOf(bc.images)[i] == BoundIds(c)[i];
    RefNamesImage(c.templates, c.graph, BoundIds(c)[i], chain + [ImageDefaults], bc.images[i], j);
    assert x in Elems(BoundIds(c));
    RefRenders(bc.images, bc.resolvers, i, j);
  }

  lemma RefRenders(bs: seq<BoundImage>, resolvers: map<string, IdResolver>, i: nat, j: nat)
    requires i < |bs| && j < |bs[i].args| && bs[i].args[j].1.Ref?
    requires forall k :: 0 <= k < |bs| ==> bs[k].id in resolvers
    requires forall k :: 0 <= k < |bs| ==> resolvers[bs[k].id] == IdResolver(bs[k].id, Some(Fqn(bs[k])))
    ensures forall k :: 0 <= k < |bs| && bs[k].id == bs[i].args[j].1.id ==>
      BuildArgs(bs[i], resolvers)[j].1 == Fqn(bs[k])
  {
  }

  /** A reference among the bound arguments of an image comes from one
      among its template's arguments, so it names another image. */
  lemma RefNamesImage(ts: seq<Template>, g: Graph<string>, id: string, chain: Chain, b: BoundImage, j: nat)
    requires Distinct(Ids(ts)) && id in ImageIds(ts) && RefsAreDeps(ts, g)
    requires forall i :: 0 <= i < |ts| && ts[i].Image? ==> Ids(ts)[i] in g && g[Ids(ts)[i]] <= ImageIds(ts)
    requires BindArgs(ImageOf(ts, id).args, chain) == Success(b.args)
    requires j < |b.args| && b.args[j].1.Ref?
    ensures b.args[j].1.id in ImageIds(ts)
  {
    var t := ImageOf(ts, id);
    var x := b.args[j].1.id;
    assert t.args[j].1 == Ref(x);
    assert Image(t) in ts;
    var p :| 0 <= p < |ts| && ts[p] == Image(t);
    assert ts[p].image.args[j].1.Ref? && ts[p].image.args[j].1.id == x;
    assert x in g[Ids(ts)[p]];
  }

  // ---------------------------------------------------------------------
  // Queries on a BoundConfig

  /** `BoundConfig.dependencies_of`: `KeyError` for an id that is not an image. */
  function DependenciesOf(bc: BoundConfig, x: string): (r: Result<set<string>, Error>)
    ensures r.Failure? <==> x !in bc.deps
    ensures r.Failure? ==> r.error == KeyError(x)
    ensures r.Success? ==> r.value == bc.deps[x]
  {
    if x in bc.deps then Success(bc.deps[x]) else Failure(KeyError(x))
  }

  /** The ids among `ids` other than `x` that depend on `x`, in their order. */
  function DependentsIn(ids: seq<string>, deps: Graph<string>, x: string): (r: seq<string>)
    ensures forall y :: y in r <==> y in ids && y != x && y in deps && x in deps[y]
  {
    if |ids| == 0 then []
    else
      var y := ids[0];
      (if y != x && y in deps && x in deps[y] then [y] else []) + DependentsIn(ids[1..], deps, x)
  }

  /** `BoundConfig.dependents_of`, from the inverse graph that the
      constructor builds over the images. */
  function DependentsOf(bc: BoundConfig, x: string): (r: Result<seq<string>, Error>)
    ensures r.Failure? <==> x !in bc.deps
    ensures r.Failure? ==> r.error == KeyError(x)
  {
    if x in bc.deps then Success(DependentsIn(IdsOf(bc.images), bc.deps, x)) else Failure(KeyError(x))
  }

  /** Every image of a bound config is a node of its graph and vice versa. */
  predicate WellFormed(bc: BoundConfig) {
    Elems(IdsOf(bc.images)) == bc.deps.Keys
  }

  lemma BindWellFormed(c: Config, cli: BindSource)
    requires Valid(c) && Bind(c, cli).Success?
    ensures WellFormed(Bind(c, cli).value)
  {
    ImageGraphDeps(c);
  }

  /** `dependents_of` inverts `dependencies_of`: `y` is a dependent of `x`
      exactly when `y` is another image among whose dependencies `x` is. */
  lemma DependentsConverse(bc: BoundConfig, x: string, y: string)
    requires WellFormed(bc) && x in bc.deps && y in bc.deps
    ensures y in DependentsOf(bc, x).value <==> y != x && x in DependenciesOf(bc, y).value
  {
    assert y in Elems(IdsOf(bc.images));
  }

  /** `BoundConfig.get_image`: the first bound image with id `x`. */
  function GetImage(bc: BoundConfig, x: string): (r: Option<BoundImage>)
    ensures r.None? <==> x !in IdsOf(bc.images)
    ensures r.Some? ==> r.value in bc.images && r.value.id == x
  {
    var k := FirstIn(IdsOf(bc.images), {x});
    if k < |bc.images| then Some(bc.images[k]) else None
  }
}
