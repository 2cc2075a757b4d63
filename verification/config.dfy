/** `Config`, `Config.partial_config`, `Config.bind` and `BoundConfig`
    (config.py): the top-level templates, the graph of which one uses which,
    the order they are built in, and binding all images at once.

    Python sets are iterated in an unspecified order; wherever the source
    iterates one, the model uses document order instead. */
module Configs {
  import opened Wrappers
  import opened Errors
  import opened Seqs
  import opened Text
  import opened Binding
  import opened Graphs
  import opened Templates

  // ---------------------------------------------------------------------
  // The templates of a config

  function Ids(ts: seq<Template>): (r: seq<string>)
    ensures |r| == |ts| && forall i :: 0 <= i < |ts| ==> r[i] == ts[i].Id()
  {
    seq(|ts|, i requires 0 <= i < |ts| => ts[i].Id())
  }

  /** The ids of the image templates (the keys of `Config.id_resolvers`). */
  function ImageIds(ts: seq<Template>): set<string> {
    set i | 0 <= i < |ts| && ts[i].Image? :: ts[i].Id()
  }

  /** The template with id `x`; the first one, should there be several. */
  function At(ts: seq<Template>, x: string): (t: Template)
    requires x in Ids(ts)
    ensures t in ts && t.Id() == x
  {
    var k := FirstIn(Ids(ts), {x});
    assert k < |ts| by {
      var j :| 0 <= j < |ts| && Ids(ts)[j] == x;
    }
    ts[k]
  }

  /** With distinct ids, `At` finds the template of each id. */
  lemma AtIndex(ts: seq<Template>, i: nat)
    requires Distinct(Ids(ts)) && i < |ts|
    ensures At(ts, ts[i].Id()) == ts[i]
  {
    var ids := Ids(ts);
    assert ids[i] == ts[i].Id();
    var k := FirstIn(ids, {ids[i]});
    assert k <= i;
    assert ids[k] == ids[i];
  }

  /** An id of an image template is the id of no group. */
  lemma ImageIdIsImage(ts: seq<Template>, x: string)
    requires Distinct(Ids(ts)) && x in ImageIds(ts)
    ensures x in Ids(ts) && At(ts, x).Image?
  {
    var i :| 0 <= i < |ts| && ts[i].Image? && ts[i].Id() == x;
    assert Ids(ts)[i] == x;
    AtIndex(ts, i);
  }

  // ---------------------------------------------------------------------
  // The dependency graph of `Config.__init__`

  /** The ids among `ids` that `t` uses, in their order. */
  function DepList(ids: seq<string>, t: Template): (r: seq<string>)
    ensures forall x :: x in r <==> x in ids && UsesId(t, x)
  {
    if |ids| == 0 then []
    else if UsesId(t, ids[0]) then [ids[0]] + DepList(ids[1..], t)
    else DepList(ids[1..], t)
  }

  /** `Config.graph`: every template's id, mapped to the ids it uses. */
  function DepGraph(ts: seq<Template>): (g: Graph<string>)
    ensures g.Keys == Elems(Ids(ts))
    ensures forall x :: x in g ==> g[x] == Elems(DepList(Ids(ts), At(ts, x)))
  {
    map x | x in Elems(Ids(ts)) :: Elems(DepList(Ids(ts), At(ts, x)))
  }

  /** X depends on Y exactly when Y is another template of the config and X
      uses it: an image through a build-argument value, a group through its
      image list or a parameter value. */
  lemma DepGraphEdges(ts: seq<Template>, i: nat, y: string)
    requires Distinct(Ids(ts)) && i < |ts|
    ensures Ids(ts)[i] in DepGraph(ts)
    ensures y in DepGraph(ts)[Ids(ts)[i]] <==> (y in Ids(ts) && y != ts[i].Id() &&
      match ts[i]
      case Image(t) => exists j :: 0 <= j < |t.args| && ArgText(t.args[j].1) == y
      case Group(g) => y in g.images || exists j :: 0 <= j < |g.parameters| && g.parameters[j].1 == y)
  {
    assert Ids(ts)[i] == ts[i].Id();
    AtIndex(ts, i);
  }

  /** The dependencies of the template at position `i`. */
  lemma DepGraphAt(ts: seq<Template>, i: nat)
    requires Distinct(Ids(ts)) && i < |ts|
    ensures Ids(ts)[i] in DepGraph(ts) && DepGraph(ts)[Ids(ts)[i]] == Elems(DepList(Ids(ts), ts[i]))
  {
    var g := DepGraph(ts);
    var x := Ids(ts)[i];
    assert x in Elems(Ids(ts));
    AtIndex(ts, i);
  }

  /** Every dependency is a template of the config. */
  lemma DepGraphClosed(ts: seq<Template>)
    ensures Closed(DepGraph(ts))
  {
  }

  // ---------------------------------------------------------------------
  // inject_resolver

  /** `Config.__init__` injects into each image the resolvers of all its
      dependencies; groups are left alone. */
  function InjectOne(t: Template, ids: seq<string>): (r: Template)
    ensures r.Id() == t.Id() && r.Image? == t.Image?
  {
    if t.Image? then Image(InjectAll(t.image, DepList(ids, t))) else t
  }

  function InjectTemplates(ts: seq<Template>, ids: seq<string>): (r: seq<Template>)
    ensures |r| == |ts| && forall i :: 0 <= i < |ts| ==> r[i] == InjectOne(ts[i], ids)
  {
    seq(|ts|, i requires 0 <= i < |ts| => InjectOne(ts[i], ids))
  }

  /** Injecting resolvers changes neither the ids a template uses nor its
      parameters. */
  lemma {:induction false} InjectAllKeeps(t: ImageTemplate, ids: seq<string>)
    ensures forall x :: UsesId(Image(InjectAll(t, ids)), x) == UsesId(Image(t), x)
    ensures ImageParams(InjectAll(t, ids)) == ImageParams(t)
    decreases |ids|
  {
    if |ids| > 0 {
      InjectKeepsText(t, ids[0]);
      InjectAllKeeps(Inject(t, ids[0]), ids[1..]);
    }
  }

  lemma InjectOneKeeps(t: Template, ids: seq<string>)
    ensures forall x :: UsesId(InjectOne(t, ids), x) == UsesId(t, x)
    ensures Params(InjectOne(t, ids)) == Params(t)
  {
    if t.Image? {
      InjectAllKeeps(t.image, DepList(ids, t));
    }
  }

  lemma {:induction false} DepListSameUses(ids: seq<string>, t: Template, u: Template)
    requires forall x :: UsesId(t, x) == UsesId(u, x)
    ensures DepList(ids, t) == DepList(ids, u)
  {
    if |ids| > 0 {
      DepListSameUses(ids[1..], t, u);
    }
  }

  /** Injection keeps the ids, the image ids and the dependency graph. */
  lemma InjectTemplatesKeeps(ts: seq<Template>)
    requires Distinct(Ids(ts))
    ensures Ids(InjectTemplates(ts, Ids(ts))) == Ids(ts)
    ensures ImageIds(InjectTemplates(ts, Ids(ts))) == ImageIds(ts)
    ensures DepGraph(InjectTemplates(ts, Ids(ts))) == DepGraph(ts)
  {
    var us := InjectTemplates(ts, Ids(ts));
    assert Ids(us) == Ids(ts);
    forall x | x in Elems(Ids(ts))
      ensures DepGraph(us)[x] == DepGraph(ts)[x]
    {
      var i :| 0 <= i < |ts| && Ids(ts)[i] == x;
      AtIndex(ts, i);
      AtIndex(us, i);
      InjectOneKeeps(ts[i], Ids(ts));
      DepListSameUses(Ids(ts), us[i], ts[i]);
    }
  }

  // ---------------------------------------------------------------------
  // Config.__init__

  /** A dependency of an image that is not an image: injecting its resolver
      looks up `id_resolvers` with a group's id. Images are visited in
      document order, and so are the dependencies of each. */
  function ForeignDep(ts: seq<Template>, all: seq<Template>): (r: Option<string>)
    ensures r.None? <==> forall i :: 0 <= i < |ts| && ts[i].Image? ==> Elems(DepList(Ids(all), ts[i])) <= ImageIds(all)
    ensures r.Some? ==> r.value in Ids(all) && r.value !in ImageIds(all)
  {
    if |ts| == 0 then None
    else
      var deps := DepList(Ids(all), ts[0]);
      var bad := if ts[0].Image? then Keep(deps, Elems(Ids(all)) - ImageIds(all)) else [];
      assert forall i :: 1 <= i < |ts| ==> ts[i] == ts[1..][i - 1];
      if |bad| > 0 then
        assert bad[0] in Elems(bad);
        Some(bad[0])
      else
        assert !ts[0].Image? || Elems(deps) <= ImageIds(all) by {
          if ts[0].Image? {
            forall y | y in Elems(deps) ensures y in ImageIds(all) {
              assert y in deps && y in Elems(Ids(all));
              assert y in ImageIds(all) || y in Elems(bad);
            }
          }
        }
        ForeignDep(ts[1..], all)
  }

  /** The resolvers of a fresh config: one unresolved resolver per image. */
  function FreshResolvers(ts: seq<Template>): (r: map<string, IdResolver>)
    ensures r.Keys == ImageIds(ts) && forall x :: x in r ==> r[x] == IdResolver(x, None)
  {
    map x | x in ImageIds(ts) :: IdResolver(x, None)
  }

  datatype Config = Config(
    templates: seq<Template>,
    graph: Graph<string>,
    order: seq<string>,
    resolvers: map<string, IdResolver>)

  /** Every reference among an image's build arguments names one of its
      dependencies. */
  predicate RefsAreDeps(ts: seq<Template>, g: Graph<string>) {
    forall i, j :: 0 <= i < |ts| && ts[i].Image? && 0 <= j < |ts[i].image.args| && ts[i].image.args[j].1.Ref? ==>
      Ids(ts)[i] in g && ts[i].image.args[j].1.id in g[Ids(ts)[i]]
  }

  /** Every reference among an image's build arguments names another
      template of the list: true of parsed templates, which have none. */
  predicate RefsKnown(ts: seq<Template>) {
    forall i, j :: 0 <= i < |ts| && ts[i].Image? && 0 <= j < |ts[i].image.args| && ts[i].image.args[j].1.Ref? ==>
      ts[i].image.args[j].1.id in Ids(ts) && ts[i].image.args[j].1.id != ts[i].Id()
  }

  /** What every config `Config.__init__` builds satisfies. */
  predicate Valid(c: Config) {
    var ts := c.templates;
    Distinct(Ids(ts)) && c.graph == DepGraph(ts) && Closed(c.graph) && IsOrder(c.graph, c.order) &&
    (forall i :: 0 <= i < |ts| && ts[i].Image? ==> Ids(ts)[i] in c.graph && c.graph[Ids(ts)[i]] <= ImageIds(ts)) &&
    RefsAreDeps(ts, c.graph) &&
    c.resolvers.Keys == ImageIds(ts) && (forall x :: x in c.resolvers ==> c.resolvers[x].identifier == x)
  }

  /** `Config(images_and_groups)`: the dependency graph, resolvers injected
      into the images that use them (a `KeyError` when an image uses a
      group), fresh resolvers, and the build order (`CycleError` when the
      graph has a cycle). */
  function MakeConfig(ts: seq<Template>): (r: Result<Config, Error>)
    requires Distinct(Ids(ts))
    ensures r.Success? ==>
      Ids(r.value.templates) == Ids(ts) && r.value.graph == DepGraph(ts) && IsOrder(r.value.graph, r.value.order) &&
      r.value.resolvers == FreshResolvers(ts)
    ensures r.Failure? ==> r.error == CycleError || (r.error.KeyError? && r.error.key in Ids(ts) && r.error.key !in ImageIds(ts))
  {
    var g := DepGraph(ts);
    match ForeignDep(ts, ts)
    case Some(x) => Failure(KeyError(x))
    case None =>
      DepGraphClosed(ts);
      var order :- TopoSort(g, Ids(ts));
      InjectTemplatesKeeps(ts);
      Success(Config(InjectTemplates(ts, Ids(ts)), g, order, FreshResolvers(ts)))
  }

  /** Every dependency of an image is an image. */
  predicate ImageDepsAreImages(ts: seq<Template>) {
    forall i :: 0 <= i < |ts| && ts[i].Image? ==> Elems(DepList(Ids(ts), ts[i])) <= ImageIds(ts)
  }

  /** Construction succeeds exactly when every dependency of an image is an
      image and the graph has a topological order; otherwise it fails with
      the `KeyError` of the injection, or with `CycleError`. */
  lemma MakeConfigCases(ts: seq<Template>)
    requires Distinct(Ids(ts))
    ensures MakeConfig(ts).Success? <==> ImageDepsAreImages(ts) && exists order :: IsOrder(DepGraph(ts), order)
    ensures ForeignDep(ts, ts).Some? ==> MakeConfig(ts) == Failure(KeyError(ForeignDep(ts, ts).value))
    ensures ForeignDep(ts, ts).None? && MakeConfig(ts).Failure? ==> MakeConfig(ts).error == CycleError
  {
    assert ForeignDep(ts, ts).None? <==> ImageDepsAreImages(ts);
    DepGraphClosed(ts);
    TopoSortComplete(DepGraph(ts), Ids(ts));
  }

  /** The same condition, read off the dependency graph. */
  lemma ImageDepsInGraph(ts: seq<Template>)
    requires Distinct(Ids(ts))
    ensures ImageDepsAreImages(ts) <==>
      forall i :: 0 <= i < |ts| && ts[i].Image? ==> Ids(ts)[i] in DepGraph(ts) && DepGraph(ts)[Ids(ts)[i]] <= ImageIds(ts)
  {
    forall i | 0 <= i < |ts| && ts[i].Image? {
      DepGraphAt(ts, i);
    }
  }

  /** A config built from templates whose references are known is valid. */
  lemma MakeConfigValid(ts: seq<Template>)
    requires Distinct(Ids(ts)) && RefsKnown(ts) && MakeConfig(ts).Success?
    ensures Valid(MakeConfig(ts).value)
  {
    var c := MakeConfig(ts).value;
    var us := c.templates;
    InjectTemplatesKeeps(ts);
    MakeConfigCases(ts);
    ImageDepsInGraph(ts);
    DepGraphClosed(ts);
    forall i | 0 <= i < |us| && us[i].Image?
      ensures Ids(us)[i] in c.graph && c.graph[Ids(us)[i]] <= ImageIds(us)
    {
      assert Ids(us)[i] == us[i].Id();
    }
    forall i, j | 0 <= i < |us| && us[i].Image? && 0 <= j < |us[i].image.args| && us[i].image.args[j].1.Ref?
      ensures Ids(us)[i] in c.graph && us[i].image.args[j].1.id in c.graph[Ids(us)[i]]
    {
      InjectedRef(ts, i, j);
    }
  }

  /** A reference in an injected image names one of its dependencies. */
  lemma InjectedRef(ts: seq<Template>, i: nat, j: nat)
    requires Distinct(Ids(ts)) && RefsKnown(ts) && i < |ts| && ts[i].Image?
    requires j < |InjectTemplates(ts, Ids(ts))[i].image.args|
    requires InjectTemplates(ts, Ids(ts))[i].image.args[j].1.Ref?
    ensures Ids(ts)[i] in DepGraph(ts)
    ensures InjectTemplates(ts, Ids(ts))[i].image.args[j].1.id in DepGraph(ts)[Ids(ts)[i]]
  {
    var t := ts[i].image;
    var deps := DepList(Ids(ts), ts[i]);
    InjectAllArgs(t, deps);
    var v := t.args[j].1;
    var x := InjectTemplates(ts, Ids(ts))[i].image.args[j].1.id;
    assert ArgText(v) == x;
    assert x in Ids(ts) && x != t.id;
    assert UsesId(ts[i], x);
    assert Ids(ts)[i] == ts[i].Id();
    AtIndex(ts, i);
  }

  /** After construction, exactly the build-argument values that name a
      dependency of their image are references to it. */
  lemma MakeConfigInjects(ts: seq<Template>, i: nat, j: nat)
    requires Distinct(Ids(ts)) && MakeConfig(ts).Success? && i < |ts| && ts[i].Image? && j < |ts[i].image.args|
    ensures var c := MakeConfig(ts).value;
      var v := ts[i].image.args[j].1;
      c.templates[i].Image? && j < |c.templates[i].image.args| &&
      c.templates[i].image.args[j] ==
        (ts[i].image.args[j].0, if v.Text? && v.text in c.graph[Ids(ts)[i]] then Ref(v.text) else v)
  {
    var t := ts[i].image;
    var deps := DepList(Ids(ts), ts[i]);
    InjectAllArgs(t, deps);
    assert Ids(ts)[i] == ts[i].Id();
    AtIndex(ts, i);
  }

  // ---------------------------------------------------------------------
  // Config.partial_config

  /** Among templates with distinct ids, a template is found by its id. */
  lemma AtMember(ts: seq<Template>, t: Template)
    requires Distinct(Ids(ts)) && t in ts
    ensures t.Id() in Ids(ts) && At(ts, t.Id()) == t
  {
    var i :| 0 <= i < |ts| && ts[i] == t;
    assert Ids(ts)[i] == t.Id();
    AtIndex(ts, i);
  }

  /** The templates whose ids are in `keep`, in document order. */
  function KeepTemplates(ts: seq<Template>, keep: set<string>): (r: seq<Template>)
    ensures Ids(r) == Keep(Ids(ts), keep)
    ensures forall t :: t in r ==> t in ts
  {
    if |ts| == 0 then []
    else
      assert Ids(ts)[1..] == Ids(ts[1..]);
      var rest := KeepTemplates(ts[1..], keep);
      if ts[0].Id() in keep then
        assert Ids([ts[0]] + rest) == [ts[0].Id()] + Ids(rest);
        [ts[0]] + rest
      else rest
  }

  /** Keeping templates cuts the dependency graph down to what is kept. */
  lemma KeepTemplatesGraph(ts: seq<Template>, keep: set<string>)
    requires Distinct(Ids(ts))
    ensures Distinct(Ids(KeepTemplates(ts, keep)))
    ensures DepGraph(KeepTemplates(ts, keep)) == Restrict(DepGraph(ts), keep)
  {
    var us := KeepTemplates(ts, keep);
    var g := Restrict(DepGraph(ts), keep);
    var h := DepGraph(us);
    assert h.Keys == g.Keys;
    forall x | x in h ensures h[x] == g[x] {
      var u := At(us, x);
      AtMember(ts, u);
      DepListKeep(Ids(ts), keep, u);
    }
    SameMaps(h, g);
  }

  lemma SameMaps<K, V>(a: map<K, V>, b: map<K, V>)
    requires a.Keys == b.Keys && forall x :: x in a ==> a[x] == b[x]
    ensures a == b
  {
  }

  lemma DepListKeep(ids: seq<string>, keep: set<string>, t: Template)
    ensures Elems(DepList(Keep(ids, keep), t)) == Elems(DepList(ids, t)) * keep
  {
    var a := Keep(ids, keep);
    assert Elems(a) == Elems(ids) * keep;
    forall x ensures x in DepList(a, t) <==> x in DepList(ids, t) && x in keep {
      assert x in a <==> x in Elems(a);
      assert x in ids <==> x in Elems(ids);
    }
  }

  /** ... and keeps each kept id an image or a group, as it was. */
  lemma KeepTemplatesImages(ts: seq<Template>, keep: set<string>)
    requires Distinct(Ids(ts))
    ensures ImageIds(KeepTemplates(ts, keep)) == ImageIds(ts) * keep
  {
    var us := KeepTemplates(ts, keep);
    forall x | x in ImageIds(us) ensures x in ImageIds(ts) * keep {
      var i :| 0 <= i < |us| && us[i].Image? && us[i].Id() == x;
      assert Ids(us)[i] == x;
      assert x in Elems(Keep(Ids(ts), keep));
      assert us[i] in us;
      var k :| 0 <= k < |ts| && ts[k] == us[i];
      assert ts[k].Image? && ts[k].Id() == x;
    }
    forall x | x in ImageIds(ts) * keep ensures x in ImageIds(us) {
      var k :| 0 <= k < |ts| && ts[k].Image? && ts[k].Id() == x;
      assert Ids(ts)[k] == x;
      assert x in Elems(Ids(us));
      var i :| 0 <= i < |us| && Ids(us)[i] == x;
      AtMember(ts, us[i]);
      AtIndex(ts, k);
    }
  }

  /** The template of `ts` that a kept template is. */
  lemma KeptIndex(ts: seq<Template>, keep: set<string>, i: nat) returns (k: nat)
    requires Distinct(Ids(ts)) && i < |KeepTemplates(ts, keep)|
    ensures k < |ts| && ts[k] == KeepTemplates(ts, keep)[i]
    ensures Ids(ts)[k] == Ids(KeepTemplates(ts, keep))[i] && Ids(ts)[k] in keep
  {
    var us := KeepTemplates(ts, keep);
    assert us[i] in us;
    k :| 0 <= k < |ts| && ts[k] == us[i];
    assert Ids(us)[i] in Elems(Keep(Ids(ts), keep));
  }

  /** Keeping a dependency-closed set of a valid config's templates keeps
      every dependency of an image an image. */
  lemma KeepImageDeps(c: Config, keep: set<string>)
    requires Valid(c) && DepClosed(c.graph, keep)
    ensures ImageDepsAreImages(KeepTemplates(c.templates, keep))
  {
    var ts := c.templates;
    var us := KeepTemplates(ts, keep);
    KeepTemplatesGraph(ts, keep);
    KeepTemplatesImages(ts, keep);
    forall i | 0 <= i < |us| && us[i].Image?
      ensures Ids(us)[i] in DepGraph(us) && DepGraph(us)[Ids(us)[i]] <= ImageIds(us)
    {
      var k := KeptIndex(ts, keep, i);
      assert Ids(ts)[k] in c.graph && c.graph[Ids(ts)[k]] <= ImageIds(ts);
    }
    ImageDepsInGraph(us);
  }

  /** ... and every reference names another kept template. */
  lemma KeepRefsKnown(c: Config, keep: set<string>)
    requires Valid(c) && DepClosed(c.graph, keep)
    ensures RefsKnown(KeepTemplates(c.templates, keep))
  {
    var ts := c.templates;
    var us := KeepTemplates(ts, keep);
    forall i, j | 0 <= i < |us| && us[i].Image? && 0 <= j < |us[i].image.args| && us[i].image.args[j].1.Ref?
      ensures us[i].image.args[j].1.id in Ids(us) && us[i].image.args[j].1.id != us[i].Id()
    {
      var k := KeptIndex(ts, keep, i);
      var y := us[i].image.args[j].1.id;
      assert y in c.graph[Ids(ts)[k]];
      DepGraphAt(ts, k);
      assert y in Elems(Keep(Ids(ts), keep));
    }
  }

  /** The config built from a dependency-closed set `keep` of a valid
      config's templates: construction succeeds and the result is valid. */
  lemma KeepTemplatesValid(c: Config, keep: set<string>)
    requires Valid(c) && DepClosed(c.graph, keep)
    ensures Distinct(Ids(KeepTemplates(c.templates, keep)))
    ensures MakeConfig(KeepTemplates(c.templates, keep)).Success?
    ensures Valid(MakeConfig(KeepTemplates(c.templates, keep)).value)
  {
    var us := KeepTemplates(c.templates, keep);
    KeepTemplatesGraph(c.templates, keep);
    KeepImageDeps(c, keep);
    KeepRefsKnown(c, keep);
    RestrictOrder(c.graph, c.order, keep);
    MakeConfigCases(us);
    MakeConfigValid(us);
  }

  /** ... it holds exactly the templates of `keep`, and its graph is the
      original one cut down to `keep`. */
  lemma KeepTemplatesConfig(c: Config, keep: set<string>)
    requires Valid(c) && DepClosed(c.graph, keep)
    ensures var us := KeepTemplates(c.templates, keep);
      Distinct(Ids(us)) && MakeConfig(us).Success? && Valid(MakeConfig(us).value) &&
      Elems(Ids(MakeConfig(us).value.templates)) == keep && MakeConfig(us).value.graph == Restrict(c.graph, keep)
  {
    var us := KeepTemplates(c.templates, keep);
    KeepTemplatesValid(c, keep);
    KeepTemplatesGraph(c.templates, keep);
    var r := MakeConfig(us).value;
    assert Ids(r.templates) == Ids(us);
    assert Elems(Ids(us)) == Elems(Ids(c.templates)) * keep;
  }

  /** `Config.partial_config(want)`: an `IndexError` for the first wanted id
      the config lacks; otherwise a new config of the wanted templates and
      all of their transitive dependencies. */
  function PartialConfig(c: Config, wanted: seq<string>): (r: Result<Config, Error>)
    requires Valid(c)
    ensures r.Failure? <==> exists i :: 0 <= i < |wanted| && wanted[i] !in c.graph
    ensures r.Failure? ==> r.error == UnknownId(FirstOutside(wanted, c.graph.Keys).value)
    ensures r.Success? ==> Valid(r.value)
  {
    match FirstOutside(wanted, c.graph.Keys)
    case Some(x) => Failure(UnknownId(x))
    case None =>
      var keep := Reach(c.graph, Elems(wanted));
      KeepTemplatesConfig(c, keep);
      MakeConfig(KeepTemplates(c.templates, keep))
  }

  /** The partial config holds the wanted templates and their dependencies
      and nothing more: its ids are the least dependency-closed set holding
      the wanted ones, and its graph is the original one cut down to them. */
  lemma PartialConfigContents(c: Config, wanted: seq<string>)
    requires Valid(c) && PartialConfig(c, wanted).Success?
    ensures var ids := Elems(Ids(PartialConfig(c, wanted).value.templates));
      Elems(wanted) <= ids && DepClosed(c.graph, ids) &&
      (forall t :: Elems(wanted) <= t && DepClosed(c.graph, t) ==> ids <= t) &&
      PartialConfig(c, wanted).value.graph == Restrict(c.graph, ids)
  {
    var keep := Reach(c.graph, Elems(wanted));
    KeepTemplatesConfig(c, keep);
    forall t | Elems(wanted) <= t && DepClosed(c.graph, t) ensures keep <= t {
      ReachLeast(c.graph, Elems(wanted), t);
    }
  }

  // ---------------------------------------------------------------------
  // Config.parameters

  /** The parameters of all templates, in document order. */
  function AllParams(ts: seq<Template>): (r: seq<string>)
    ensures forall p :: p in r <==> exists i :: 0 <= i < |ts| && p in Params(ts[i])
  {
    if |ts| == 0 then []
    else
      var rest := AllParams(ts[1..]);
      assert forall p :: p in rest <==> exists i :: 1 <= i < |ts| && p in Params(ts[i]) by {
        forall p | p in rest ensures exists i :: 1 <= i < |ts| && p in Params(ts[i]) {
          var k :| 0 <= k < |ts[1..]| && p in Params(ts[1..][k]);
          assert p in Params(ts[k + 1]);
        }
        forall p | (exists i :: 1 <= i < |ts| && p in Params(ts[i])) ensures p in rest {
          var i :| 1 <= i < |ts| && p in Params(ts[i]);
          assert ts[i] == ts[1..][i - 1];
        }
      }
      Params(ts[0]) + rest
  }

  /** `Config.parameters()`: the parameters of all templates, sorted, each once. */
  function Parameters(c: Config): (r: seq<string>)
    ensures StrictlySorted(r)
    ensures forall p :: p in r <==> exists i :: 0 <= i < |c.templates| && p in Params(c.templates[i])
  {
    var all := AllParams(c.templates);
    var r := SortedDistinct(all);
    assert forall p :: p in r <==> p in all by {
      forall p ensures p in r <==> p in all {
        assert p in r <==> p in Elems(r);
        assert p in all <==> p in Elems(all);
      }
    }
    r
  }

  /** Every parameter is a well-formed name, and none is listed twice. */
  lemma ParametersAreNames(c: Config)
    ensures forall p :: p in Parameters(c) ==> IsName(p)
    ensures Distinct(Parameters(c))
  {
    forall p | p in Parameters(c) ensures IsName(p) {
      var i :| 0 <= i < |c.templates| && p in Params(c.templates[i]);
      ParamsAreNames(c.templates[i]);
    }
    StrictlySortedDistinct(Parameters(c));
  }

  // ---------------------------------------------------------------------
  // Config.parse_stream

  /** A template with no references among its build arguments, as every
      parsed template is. */
  predicate NoRefs(t: Template) {
    t.Image? ==> forall j :: 0 <= j < |t.image.args| ==> t.image.args[j].1.Text?
  }

  /** One top-level item: a mapping with `build` is an image, one with
      `images` (and no `build`) a group; anything else raises `ParseError`. */
  function ParseItem(key: string, item: Yaml): (r: Result<Parsed, Error>)
    ensures !item.YMap? ==> r == Failure(ParseError(TopLevelNotMapping(key)))
    ensures item.YMap? && Get(item.entries, "build").None? && Get(item.entries, "images").None? ==>
      r == Failure(ParseError(NeitherImageNorGroup(key)))
    ensures r.Success? && r.value.Parsed? ==> r.value.template.Id() == key && NoRefs(r.value.template)
    ensures r.Success? && r.value.Parsed? ==> (r.value.template.Image? <==> Get(item.entries, "build").Some?)
  {
    if !item.YMap? then Failure(ParseError(TopLevelNotMapping(key)))
    else if Get(item.entries, "build").Some? then ParseImage(key, item.entries)
    else if Get(item.entries, "images").Some? then ParseGroup(key, item.entries)
    else Failure(ParseError(NeitherImageNorGroup(key)))
  }

  /** The loop of `Config.parse_stream`: the first item that raises ends it. */
  function ParseItems(entries: seq<(string, Yaml)>): (r: Result<seq<Parsed>, Error>)
    ensures r.Success? <==> forall i :: 0 <= i < |entries| ==> ParseItem(entries[i].0, entries[i].1).Success?
    ensures r.Success? ==> |r.value| == |entries|
    ensures r.Success? ==> forall i :: 0 <= i < |entries| ==> Success(r.value[i]) == ParseItem(entries[i].0, entries[i].1)
    ensures r.Failure? ==> exists i :: (0 <= i < |entries| && ParseItem(entries[i].0, entries[i].1) == Failure(r.error) &&
      forall j :: 0 <= j < i ==> ParseItem(entries[j].0, entries[j].1).Success?)
  {
    if |entries| == 0 then Success([])
    else
      assert forall i :: 1 <= i < |entries| ==> entries[i] == entries[1..][i - 1];
      var p :- ParseItem(entries[0].0, entries[0].1);
      var rest :- ParseItems(entries[1..]);
      Success([p] + rest)
  }

  /** The templates of successfully parsed items. */
  function TemplatesOf(parsed: seq<Parsed>): (ts: seq<Template>)
    requires forall i :: 0 <= i < |parsed| ==> parsed[i].Parsed?
    ensures |ts| == |parsed| && forall i :: 0 <= i < |parsed| ==> ts[i] == parsed[i].template
  {
    seq(|parsed|, i requires 0 <= i < |parsed| => parsed[i].template)
  }

  /** `Config.parse_stream` on a loaded document: a document that is not a
      mapping has no `items` (`AttributeError`); an item whose `parse_from`
      returned its `ParseError` instead of raising it reaches the
      constructor, which asks it for its `id` (`AttributeError`); otherwise
      the templates, one per top-level key, go to `Config`. The loader gives
      each key of a mapping once. */
  function ParseConfig(doc: Yaml): (r: Result<Config, Error>)
    requires doc.YMap? ==> Distinct(Keys(doc.entries))
    ensures !doc.YMap? ==> r == Failure(AttributeError)
    ensures r.Success? ==> doc.YMap? && Ids(r.value.templates) == Keys(doc.entries)
  {
    if !doc.YMap? then Failure(AttributeError)
    else
      var parsed :- ParseItems(doc.entries);
      if exists i :: 0 <= i < |parsed| && parsed[i].Returned? then Failure(AttributeError)
      else
        var ts := TemplatesOf(parsed);
        assert Ids(ts) == Keys(doc.entries);
        MakeConfig(ts)
  }

  /** Every item of the document parsed to a template: none raised, none
      returned its `ParseError`. */
  predicate ItemsParsed(entries: seq<(string, Yaml)>) {
    forall i :: 0 <= i < |entries| ==>
      ParseItem(entries[i].0, entries[i].1).Success? && ParseItem(entries[i].0, entries[i].1).value.Parsed?
  }

  /** The three ways `parse_stream` ends on a mapping: the first item that
      raises passes its error on; an item that returned its `ParseError`
      makes the constructor raise `AttributeError`; otherwise the result is
      `Config` of the templates, in document order. */
  lemma ParseConfigCases(doc: Yaml)
    requires doc.YMap? && Distinct(Keys(doc.entries))
    ensures ParseItems(doc.entries).Failure? ==> ParseConfig(doc) == Failure(ParseItems(doc.entries).error)
    ensures ParseItems(doc.entries).Success? && !ItemsParsed(doc.entries) ==> ParseConfig(doc) == Failure(AttributeError)
    ensures ItemsParsed(doc.entries) ==>
      ParseItems(doc.entries).Success? && ParseConfig(doc) == MakeConfig(TemplatesOf(ParseItems(doc.entries).value))
    ensures ParseConfig(doc).Success? <==>
      (ItemsParsed(doc.entries) && MakeConfig(TemplatesOf(ParseItems(doc.entries).value)).Success?)
  {
    var es := doc.entries;
    var p := ParseItems(es);
    if p.Success? {
      if !ItemsParsed(es) {
        var i :| 0 <= i < |es| && !ParseItem(es[i].0, es[i].1).value.Parsed?;
        assert p.value[i].Returned?;
      } else {
        assert forall i :: 0 <= i < |p.value| ==> p.value[i].Parsed?;
      }
    }
  }

  /** Every config parsed from a document is valid. */
  lemma ParseConfigValid(doc: Yaml)
    requires doc.YMap? ==> Distinct(Keys(doc.entries))
    requires ParseConfig(doc).Success?
    ensures Valid(ParseConfig(doc).value)
  {
    var parsed := ParseItems(doc.entries).value;
    var ts := TemplatesOf(parsed);
    assert Ids(ts) == Keys(doc.entries);
    assert RefsKnown(ts) by {
      forall i | 0 <= i < |ts| ensures NoRefs(ts[i]) {
        assert Success(parsed[i]) == ParseItem(doc.entries[i].0, doc.entries[i].1);
      }
    }
    MakeConfigValid(ts);
  }

  /** The images of a parsed config are the items with a `build` section. */
  lemma ParseConfigImages(doc: Yaml, i: nat)
    requires doc.YMap? ==> Distinct(Keys(doc.entries))
    requires ParseConfig(doc).Success? && i < |doc.entries|
    ensures doc.entries[i].0 in ImageIds(ParseConfig(doc).value.templates) <==>
      doc.entries[i].1.YMap? && Get(doc.entries[i].1.entries, "build").Some?
  {
    var parsed := ParseItems(doc.entries).value;
    var ts := TemplatesOf(parsed);
    assert Ids(ts) == Keys(doc.entries);
    InjectTemplatesKeeps(ts);
    assert Success(parsed[i]) == ParseItem(doc.entries[i].0, doc.entries[i].1);
    assert Ids(ts)[i] == doc.entries[i].0;
    if doc.entries[i].0 in ImageIds(ts) {
      var k :| 0 <= k < |ts| && ts[k].Image? && ts[k].Id() == doc.entries[i].0;
      assert Ids(ts)[k] == Ids(ts)[i];
    }
  }
}
