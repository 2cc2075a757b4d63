/** Turning the OCI graph into work (buildah.py): the `buildah` commands
    each OCI image and manifest needs, and the work graph that runs them in
    dependency order. */
module Buildah {
  import opened Wrappers
  import opened Errors
  import opened Seqs
  import opened Dicts
  import opened Graphs
  import opened Oci
  import opened Works

  // ---------------------------------------------------------------------
  // Commands

  /** `--build-arg name=value` for each build argument, in order. */
  function BuildArgs(args: seq<(string, string)>): (r: seq<string>)
    ensures |r| == 2 * |args|
    ensures forall i :: 0 <= i < |args| ==> r[2 * i] == "--build-arg" && r[2 * i + 1] == args[i].0 + "=" + args[i].1
  {
    if |args| == 0 then []
    else
      var rest := BuildArgs(args[1..]);
      var r := ["--build-arg", args[0].0 + "=" + args[0].1] + rest;
      BuildArgsStep(args, rest, r);
      r
  }

  lemma BuildArgsStep(args: seq<(string, string)>, rest: seq<string>, r: seq<string>)
    requires |args| > 0 && |rest| == 2 * (|args| - 1)
    requires forall i :: 0 <= i < |args| - 1 ==> rest[2 * i] == "--build-arg" && rest[2 * i + 1] == args[1..][i].0 + "=" + args[1..][i].1
    requires r == ["--build-arg", args[0].0 + "=" + args[0].1] + rest
    ensures forall i :: 0 <= i < |args| ==> r[2 * i] == "--build-arg" && r[2 * i + 1] == args[i].0 + "=" + args[i].1
  {
    forall i | 0 <= i < |args| ensures r[2 * i] == "--build-arg" && r[2 * i + 1] == args[i].0 + "=" + args[i].1 {
      if i > 0 {
        var k := 2 * (i - 1);
        assert args[i] == args[1..][i - 1];
        assert r[k + 2] == rest[k] && r[k + 3] == rest[k + 1];
      }
    }
  }

  /** `--arch` when the image has an architecture, and `--variant` after it
      when it also has a variant, even an empty one. */
  function PlatformArgs(arch: Option<string>, variant: Option<string>): seq<string> {
    match arch
    case None => []
    case Some(a) => ["--arch", a] + (if variant.Some? then ["--variant", variant.value] else [])
  }

  function BudArgv(n: OciNode): seq<string>
    requires n.OciImage?
  {
    ["buildah", "bud", "-t", n.fqn] + BuildArgs(n.arguments) + PlatformArgs(n.arch, n.variant)
  }

  /** `_image_build`: `buildah bud`, run in the build context and retried. */
  function ImageBuild(n: OciNode): Action
    requires n.OciImage?
  {
    Retrying(RunCommand(Command(BudArgv(n), Some(n.context))), DefaultPolicy)
  }

  /** `_image_push`: `buildah push`, retried. */
  function ImagePush(n: OciNode): Action {
    Retrying(RunCommand(Command(["buildah", "push", n.fqn], None)), DefaultPolicy)
  }

  /** `_manifest_create`: `buildah manifest create`, not retried. */
  function ManifestCreate(n: OciNode): Action {
    RunCommand(Command(["buildah", "manifest", "create", n.fqn], None))
  }

  /** One step of `_manifest_add`: `buildah manifest add` of one image,
      not retried. */
  function ManifestAdd(n: OciNode, image: string): Action {
    RunCommand(Command(["buildah", "manifest", "add", n.fqn, image], None))
  }

  /** `_manifest_push`: `buildah manifest push --all`, retried. */
  function ManifestPush(n: OciNode): Action {
    Retrying(RunCommand(Command(["buildah", "manifest", "push", "--all", n.fqn], None)), DefaultPolicy)
  }

  /** The command line an action runs, through any retrying. */
  function Argv(a: Action): seq<string> {
    match a
    case RunCommand(c) => c.argv
    case Retrying(inner, _) => Argv(inner)
  }

  /** The action pushes something to a registry: `buildah push` or
      `buildah manifest push`. */
  predicate Pushes(a: Action) {
    var v := Argv(a);
    (|v| >= 2 && v[1] == "push") || (|v| >= 3 && v[1] == "manifest" && v[2] == "push")
  }

  /** Of the five commands exactly the two pushes push. */
  lemma PushesExactly(n: OciNode, image: string)
    ensures n.OciImage? ==> !Pushes(ImageBuild(n))
    ensures Pushes(ImagePush(n)) && Pushes(ManifestPush(n))
    ensures !Pushes(ManifestCreate(n)) && !Pushes(ManifestAdd(n, image))
  {
    if n.OciImage? {
      assert Argv(ImageBuild(n)) == BudArgv(n);
      assert BudArgv(n)[1] == "bud";
    }
    assert Argv(ManifestCreate(n))[2] == "create";
    assert Argv(ManifestAdd(n, image))[2] == "add";
  }

  // ---------------------------------------------------------------------
  // Reading a `buildah bud` command line back

  /** What a `buildah bud` command asks for. */
  datatype Bud = Bud(tag: string, args: seq<(string, string)>, arch: Option<string>, variant: Option<string>)

  /** A build argument split at its first `=`. */
  function SplitArg(s: string): (string, string) {
    var i := FirstIn(s, {'='});
    if i < |s| then (s[..i], s[i + 1..]) else (s, "")
  }

  /** The leading `--build-arg` pairs of `ts`, and what follows them. */
  function ReadBuildArgs(ts: seq<string>): (seq<(string, string)>, seq<string>)
    decreases |ts|
  {
    if |ts| >= 2 && ts[0] == "--build-arg" then
      var (args, rest) := ReadBuildArgs(ts[2..]);
      ([SplitArg(ts[1])] + args, rest)
    else ([], ts)
  }

  function ReadPlatform(ts: seq<string>): Option<(Option<string>, Option<string>)> {
    if ts == [] then Some((None, None))
    else if |ts| == 2 && ts[0] == "--arch" then Some((Some(ts[1]), None))
    else if |ts| == 4 && ts[0] == "--arch" && ts[2] == "--variant" then Some((Some(ts[1]), Some(ts[3])))
    else None
  }

  function ReadBud(argv: seq<string>): Option<Bud> {
    if |argv| >= 4 && argv[..3] == ["buildah", "bud", "-t"] then
      var (args, rest) := ReadBuildArgs(argv[4..]);
      var platform :- ReadPlatform(rest);
      Some(Bud(argv[3], args, platform.0, platform.1))
    else None
  }

  lemma SplitArgJoined(name: string, value: string)
    requires '=' !in name
    ensures SplitArg(name + "=" + value) == (name, value)
  {
    var s := name + "=" + value;
    assert s[|name|] == '=';
    var i := FirstIn(s, {'='});
    assert i == |name| by {
      forall j | 0 <= j < |name| ensures s[j] !in {'='} {
        assert s[j] == name[j];
      }
    }
    assert s[..i] == name && s[i + 1..] == value;
  }

  lemma {:induction false} ReadBuildArgsBack(args: seq<(string, string)>, tail: seq<string>)
    requires forall i :: 0 <= i < |args| ==> '=' !in args[i].0
    requires |tail| == 0 || tail[0] != "--build-arg"
    ensures ReadBuildArgs(BuildArgs(args) + tail) == (args, tail)
    decreases |args|
  {
    if |args| > 0 {
      var ts := BuildArgs(args) + tail;
      assert ts == ["--build-arg", args[0].0 + "=" + args[0].1] + (BuildArgs(args[1..]) + tail);
      assert ts[2..] == BuildArgs(args[1..]) + tail;
      ReadBuildArgsBack(args[1..], tail);
      SplitArgJoined(args[0].0, args[0].1);
      assert [args[0]] + args[1..] == args;
    } else {
      assert BuildArgs(args) + tail == tail;
    }
  }

  /** The build command of an image reads back as its tag, its build
      arguments and its platform, when no argument name holds `=`. A
      variant without an architecture is not passed on. */
  lemma BudRoundTrip(n: OciNode)
    requires n.OciImage?
    requires forall i :: 0 <= i < |n.arguments| ==> '=' !in n.arguments[i].0
    ensures ReadBud(BudArgv(n)) == Some(Bud(n.fqn, n.arguments, n.arch, if n.arch.Some? then n.variant else None))
  {
    var argv := BudArgv(n);
    var tail := PlatformArgs(n.arch, n.variant);
    assert argv[..3] == ["buildah", "bud", "-t"];
    assert argv[4..] == BuildArgs(n.arguments) + tail;
    ReadBuildArgsBack(n.arguments, tail);
  }

  // ---------------------------------------------------------------------
  // The work of one OCI node

  /** A piece of work and the work it waits for, as written into the work
      graph. */
  type Entry = (Work, seq<Work>)

  function WorksOf(es: seq<Entry>): (r: seq<Work>)
    ensures |r| == |es| && forall i :: 0 <= i < |es| ==> r[i] == es[i].0
  {
    seq(|es|, i requires 0 <= i < |es| => es[i].0)
  }

  /** Entries numbered from `next` on, each waiting only for earlier
      entries, the first excepted. */
  predicate Numbered(es: seq<Entry>, next: nat) {
    (forall i :: 0 <= i < |es| ==> es[i].0.serial == next + i) &&
    (forall i, d :: 1 <= i < |es| && d in es[i].1 ==> next <= d.serial < next + i && es[d.serial - next].0 == d) &&
    (forall i :: 1 <= i < |es| ==> Distinct(es[i].1))
  }

  /** The images listed by some manifest of the graph. With `push` these
      are built but not pushed by themselves. */
  function NotPushed(g: OciGraph, push: bool): (r: set<string>)
    ensures forall f :: f in r <==> push && exists n :: n in g.items && n.OciManifest? && f in n.images
  {
    if push then set n, f | n in g.items && n.OciManifest? && f in n.images :: f else {}
  }

  /** An image: its build, waiting for `pre`, then, when it is to be
      pushed, its push, waiting for the build. */
  function ImageEntries(n: OciNode, pre: seq<Work>, pushIt: bool, next: nat): (r: seq<Entry>)
    requires n.OciImage?
    ensures |r| == (if pushIt then 2 else 1) && Numbered(r, next)
    ensures r[0] == (Work(next, ImageBuild(n)), pre)
    ensures pushIt ==> r[1] == (Work(next + 1, ImagePush(n)), [r[0].0])
  {
    var build := Work(next, ImageBuild(n));
    [(build, pre)] + if pushIt then [(Work(next + 1, ImagePush(n)), [build])] else []
  }

  /** A manifest: its creation, waiting for `pre`; an addition per image
      listed, in order, each waiting for the creation; and with `push` the
      push of the manifest, waiting for all the additions. */
  function ManifestEntries(n: OciNode, pre: seq<Work>, push: bool, next: nat): (r: seq<Entry>)
    requires n.OciManifest?
    ensures |r| == 1 + |n.images| + (if push then 1 else 0)
    ensures r[0] == (Work(next, ManifestCreate(n)), pre)
    ensures forall i :: 0 <= i < |n.images| ==> r[1 + i] == (Work(next + 1 + i, ManifestAdd(n, n.images[i])), [r[0].0])
    ensures push ==> r[|r| - 1] == (Work(next + 1 + |n.images|, ManifestPush(n)), WorksOf(r[1..1 + |n.images|]))
  {
    var k := |n.images|;
    var create := Work(next, ManifestCreate(n));
    var adds := seq(k, i requires 0 <= i < k => Work(next + 1 + i, ManifestAdd(n, n.images[i])));
    var r := seq(1 + k + (if push then 1 else 0), i requires 0 <= i < 1 + k + (if push then 1 else 0) =>
      if i == 0 then (create, pre)
      else if i <= k then (adds[i - 1], [create])
      else (Work(next + 1 + k, ManifestPush(n)), adds));
    assert push ==> WorksOf(r[1..1 + k]) == adds;
    r
  }

  lemma ManifestNumbered(n: OciNode, pre: seq<Work>, push: bool, next: nat)
    requires n.OciManifest?
    ensures Numbered(ManifestEntries(n, pre, push, next), next)
  {
    var r := ManifestEntries(n, pre, push, next);
    ManifestSerials(n, pre, push, next);
    forall i, d | 1 <= i < |r| && d in r[i].1 ensures next <= d.serial < next + i && r[d.serial - next].0 == d {
      if i == |r| - 1 && push {
        ManifestPushWaits(n, pre, next, d);
      }
    }
    forall i | 1 <= i < |r| ensures Distinct(r[i].1) {
      if i == |r| - 1 && push {
        ManifestAddsDistinct(n, pre, next);
      }
    }
  }

  lemma ManifestSerials(n: OciNode, pre: seq<Work>, push: bool, next: nat)
    requires n.OciManifest?
    ensures var r := ManifestEntries(n, pre, push, next);
      forall i :: 0 <= i < |r| ==> r[i].0.serial == next + i
  {
  }

  lemma ManifestPushWaits(n: OciNode, pre: seq<Work>, next: nat, d: Work)
    requires n.OciManifest?
    requires var r := ManifestEntries(n, pre, true, next); d in r[|r| - 1].1
    ensures var r := ManifestEntries(n, pre, true, next);
      next < d.serial < next + |r| - 1 && r[d.serial - next].0 == d
  {
    var r := ManifestEntries(n, pre, true, next);
    var k := |n.images|;
    var adds := WorksOf(r[1..1 + k]);
    assert d in adds;
    var j :| 0 <= j < k && adds[j] == d;
    assert adds[j] == r[1..1 + k][j].0 == r[1 + j].0;
    assert d.serial == next + 1 + j;
  }

  lemma ManifestAddsDistinct(n: OciNode, pre: seq<Work>, next: nat)
    requires n.OciManifest?
    ensures var r := ManifestEntries(n, pre, true, next); Distinct(r[|r| - 1].1)
  {
    var r := ManifestEntries(n, pre, true, next);
    var k := |n.images|;
    var adds := WorksOf(r[1..1 + k]);
    forall a, b | 0 <= a < b < k ensures adds[a] != adds[b] {
      assert adds[a] == r[1 + a].0 && adds[b] == r[1 + b].0;
    }
  }

  /** The entries `build_graph` writes for node `n`. */
  function Entries(n: OciNode, pre: seq<Work>, push: bool, notPushed: set<string>, next: nat): (r: seq<Entry>)
    ensures |r| > 0 && r[0].1 == pre && Numbered(r, next)
  {
    if n.OciImage? then ImageEntries(n, pre, push && n.fqn !in notPushed, next)
    else
      ManifestNumbered(n, pre, push, next);
      ManifestEntries(n, pre, push, next)
  }

  /** The work that dependents of `n` wait for: the last piece of an
      image's work, the push of a pushed manifest, and the additions of a
      manifest not pushed. */
  function Downstream(n: OciNode, es: seq<Entry>, push: bool): (r: seq<Work>)
    requires |es| > 0 && Numbered(es, es[0].0.serial)
    ensures Distinct(r)
    ensures forall w :: w in r ==> exists i :: 0 <= i < |es| && es[i].0 == w
  {
    if n.OciImage? || push then [es[|es| - 1].0]
    else
      var r := WorksOf(es[1..]);
      forall w | w in r ensures exists i :: 0 <= i < |es| && es[i].0 == w {
        var j :| 0 <= j < |r| && r[j] == w;
        assert es[j + 1].0 == w;
      }
      r
  }

  // ---------------------------------------------------------------------
  // `build_graph`

  /** `work_graph[w] = deps` for each entry in turn, every work new. */
  function PutEntries(g: WorkGraph, es: seq<Entry>): (r: WorkGraph)
    requires g.Valid()
    requires forall i :: 0 <= i < |es| ==> es[i].0 !in g.items
    requires forall i, j :: 0 <= i < j < |es| ==> es[i].0 != es[j].0
    ensures r.Valid() && r.keys == g.keys + WorksOf(es)
    decreases |es|
  {
    if |es| == 0 then
      assert g.keys + WorksOf(es) == g.keys;
      g
    else
      var g1 := Put(g, es[0].0, es[0].1);
      var r := PutEntries(g1, es[1..]);
      KeysCons(g.keys, es);
      r
  }

  /** The entries are added, and nothing else changes. */
  lemma PutEntriesItems(g: WorkGraph, es: seq<Entry>)
    requires g.Valid()
    requires forall i :: 0 <= i < |es| ==> es[i].0 !in g.items
    requires forall i, j :: 0 <= i < j < |es| ==> es[i].0 != es[j].0
    ensures var r := PutEntries(g, es);
      r.items.Keys == g.items.Keys + Elems(WorksOf(es)) &&
      (forall w :: w in g.items ==> r.items[w] == g.items[w]) &&
      (forall i :: 0 <= i < |es| ==> r.items[es[i].0] == es[i].1)
  {
    ElemsAppend(g.keys, WorksOf(es));
    PutEntriesKeeps(g, es);
    PutEntriesNew(g, es);
  }

  /** After the first entry is put, the rest are still new and distinct. */
  lemma PutTailFresh(g: WorkGraph, es: seq<Entry>)
    requires g.Valid() && |es| > 0
    requires forall i :: 0 <= i < |es| ==> es[i].0 !in g.items
    requires forall i, j :: 0 <= i < j < |es| ==> es[i].0 != es[j].0
    ensures var g1 := Put(g, es[0].0, es[0].1);
      (forall i :: 0 <= i < |es[1..]| ==> es[1..][i].0 !in g1.items) &&
      (forall i, j :: 0 <= i < j < |es[1..]| ==> es[1..][i].0 != es[1..][j].0)
  {
    var g1 := Put(g, es[0].0, es[0].1);
    var t := es[1..];
    forall i | 0 <= i < |t| ensures t[i].0 !in g1.items {
      assert t[i] == es[i + 1];
    }
    forall i, j | 0 <= i < j < |t| ensures t[i].0 != t[j].0 {
      assert t[i] == es[i + 1] && t[j] == es[j + 1];
    }
  }

  /** Putting new entries leaves the old ones alone. */
  lemma {:induction false} PutEntriesKeeps(g: WorkGraph, es: seq<Entry>)
    requires g.Valid()
    requires forall i :: 0 <= i < |es| ==> es[i].0 !in g.items
    requires forall i, j :: 0 <= i < j < |es| ==> es[i].0 != es[j].0
    ensures forall w :: w in g.items ==> w in PutEntries(g, es).items && PutEntries(g, es).items[w] == g.items[w]
    decreases |es|
  {
    if |es| > 0 {
      var g1 := Put(g, es[0].0, es[0].1);
      PutTailFresh(g, es);
      PutEntriesKeeps(g1, es[1..]);
      assert PutEntries(g, es) == PutEntries(g1, es[1..]);
    }
  }

  /** Every entry put is in the result with its dependencies. */
  lemma {:induction false} PutEntriesNew(g: WorkGraph, es: seq<Entry>)
    requires g.Valid()
    requires forall i :: 0 <= i < |es| ==> es[i].0 !in g.items
    requires forall i, j :: 0 <= i < j < |es| ==> es[i].0 != es[j].0
    ensures forall i :: 0 <= i < |es| ==> es[i].0 in PutEntries(g, es).items && PutEntries(g, es).items[es[i].0] == es[i].1
    decreases |es|
  {
    if |es| > 0 {
      var g1 := Put(g, es[0].0, es[0].1);
      var t := es[1..];
      PutTailFresh(g, es);
      PutEntriesKeeps(g1, t);
      PutEntriesNew(g1, t);
      var r := PutEntries(g, es);
      assert r == PutEntries(g1, t);
      forall i | 0 <= i < |es| ensures es[i].0 in r.items && r.items[es[i].0] == es[i].1 {
        if i > 0 {
          assert es[i] == t[i - 1];
        }
      }
    }
  }

  lemma KeysCons(keys: seq<Work>, es: seq<Entry>)
    requires |es| > 0
    ensures (keys + [es[0].0]) + WorksOf(es[1..]) == keys + WorksOf(es)
  {
    WorksOfCons(es);
  }

  lemma WorksOfCons(es: seq<Entry>)
    requires |es| > 0
    ensures WorksOf(es) == [es[0].0] + WorksOf(es[1..])
  {
  }

  /** The state of `build_graph` after some of the OCI nodes: the work
      graph so far, `oci_to_work` (what the dependents of each node wait
      for), the work made for each node, and the serial number of the next
      work made. */
  datatype Plan = Plan(graph: WorkGraph, down: map<OciNode, seq<Work>>, made: map<OciNode, seq<Work>>, next: nat)

  /** Every work in `g` was numbered before `next`. */
  predicate Below(g: WorkGraph, next: nat) {
    forall w :: w in g.items ==> w.serial < next
  }

  /** No two works share a serial number. */
  predicate SerialsUnique(g: WorkGraph) {
    forall w, v :: w in g.items && v in g.items && w.serial == v.serial ==> w == v
  }

  /** Every work waits only for work in the graph made before it. */
  predicate DepsEarlier(g: WorkGraph) {
    forall w, d :: w in g.items && d in g.items[w] ==> d in g.items && d.serial < w.serial
  }

  /** No list of work to wait for names the same work twice. */
  predicate DepsDistinct(g: WorkGraph) {
    forall w :: w in g.items ==> Distinct(g.items[w])
  }

  /** Every work is made once, after all the work it waits for, and no
      list of work to wait for names the same work twice. */
  predicate Numbering(p: Plan) {
    p.graph.Valid() && Below(p.graph, p.next) && SerialsUnique(p.graph) && DepsEarlier(p.graph) && DepsDistinct(p.graph)
  }

  /** What dependents wait for is work in the graph, and different nodes
      hand over different work. */
  predicate Handoff(p: Plan) {
    (forall n :: n in p.down ==> Distinct(p.down[n]) && Elems(p.down[n]) <= p.graph.items.Keys) &&
    (forall n, m :: n in p.down && m in p.down && n != m ==> Elems(p.down[n]) !! Elems(p.down[m]))
  }

  /** Every work in the graph was made for some node. */
  predicate Owned(p: Plan) {
    p.down.Keys == p.made.Keys &&
    (forall n :: n in p.made ==> Elems(p.made[n]) <= p.graph.items.Keys) &&
    (forall w :: w in p.graph.items ==> exists n :: n in p.made && w in p.made[n])
  }

  predicate Good(p: Plan) {
    Numbering(p) && Handoff(p) && Owned(p)
  }

  /** `prerequisite_work`: what the dependencies of a node hand over, one
      dependency after another. */
  function Prereqs(down: map<OciNode, seq<Work>>, deps: seq<OciNode>): seq<Work>
    requires Elems(deps) <= down.Keys
  {
    Flatten(seq(|deps|, i requires 0 <= i < |deps| => down[deps[i]]))
  }

  lemma PrereqsGood(p: Plan, deps: seq<OciNode>)
    requires Good(p) && Distinct(deps) && Elems(deps) <= p.down.Keys
    ensures Distinct(Prereqs(p.down, deps))
    ensures forall w :: w in Prereqs(p.down, deps) ==> w in p.graph.items
  {
    var xss := seq(|deps|, i requires 0 <= i < |deps| => p.down[deps[i]]);
    assert forall i :: 0 <= i < |deps| ==> deps[i] in p.down;
    FlattenDistinct(xss);
    FlattenElems(xss);
  }

  lemma PrereqsAgree(d1: map<OciNode, seq<Work>>, d2: map<OciNode, seq<Work>>, deps: seq<OciNode>)
    requires Elems(deps) <= d1.Keys && Elems(deps) <= d2.Keys
    requires forall n :: n in deps ==> d1[n] == d2[n]
    ensures Prereqs(d1, deps) == Prereqs(d2, deps)
  {
    var a := seq(|deps|, i requires 0 <= i < |deps| => d1[deps[i]]);
    var b := seq(|deps|, i requires 0 <= i < |deps| => d2[deps[i]]);
    assert a == b;
  }

  /** Handling one OCI node `n` whose dependencies are `deps`. */
  function Step(p: Plan, n: OciNode, deps: seq<OciNode>, push: bool, notPushed: set<string>): Plan
    requires p.graph.Valid() && Below(p.graph, p.next) && Elems(deps) <= p.down.Keys
  {
    StepPre(p, n, Prereqs(p.down, deps), push, notPushed)
  }

  /** Handling node `n` once `pre`, the work it waits for, is known: its
      entries go into the work graph, and `oci_to_work` records what its
      dependents will wait for. */
  function StepPre(p: Plan, n: OciNode, pre: seq<Work>, push: bool, notPushed: set<string>): Plan
    requires p.graph.Valid() && Below(p.graph, p.next)
  {
    var es := Entries(n, pre, push, notPushed, p.next);
    EntriesFresh(p.graph, n, pre, push, notPushed, p.next);
    Plan(PutEntries(p.graph, es), p.down[n := Downstream(n, es, push)], p.made[n := WorksOf(es)], p.next + |es|)
  }

  /** What one step adds: the entries of `n`, numbered from `next`, go
      into the work graph and become what `n` has made. */
  lemma StepPreFacts(p: Plan, n: OciNode, pre: seq<Work>, push: bool, notPushed: set<string>) returns (es: seq<Entry>)
    requires p.graph.Valid() && Below(p.graph, p.next)
    ensures es == Entries(n, pre, push, notPushed, p.next)
    ensures StepPre(p, n, pre, push, notPushed) ==
      Plan(PutEntries(p.graph, es), p.down[n := Downstream(n, es, push)], p.made[n := WorksOf(es)], p.next + |es|)
  {
    es := Entries(n, pre, push, notPushed, p.next);
  }

  /** Where each work of the entries of `n` sits among them. */
  lemma EntriesWorks(n: OciNode, pre: seq<Work>, push: bool, notPushed: set<string>, next: nat)
    ensures var es := Entries(n, pre, push, notPushed, next);
      forall w :: w in Elems(WorksOf(es)) ==> next <= w.serial < next + |es| && es[w.serial - next].0 == w
  {
    NumberedWorks(Entries(n, pre, push, notPushed, next), next);
  }

  /** The entries of `n`, numbered from `next` on, extend a graph numbered
      below `next`. */
  lemma EntriesFresh(g: WorkGraph, n: OciNode, pre: seq<Work>, push: bool, notPushed: set<string>, next: nat)
    requires g.Valid() && Below(g, next)
    ensures var es := Entries(n, pre, push, notPushed, next);
      (forall i :: 0 <= i < |es| ==> es[i].0 !in g.items) &&
      (forall i, j :: 0 <= i < j < |es| ==> es[i].0 != es[j].0) &&
      Extends(g, PutEntries(g, es), es)
  {
    PutFresh(g, Entries(n, pre, push, notPushed, next), next);
  }

  /** Entries numbered from `next` on are new to a graph numbered below
      `next`, so putting them extends the graph. */
  lemma PutFresh(g: WorkGraph, es: seq<Entry>, next: nat)
    requires g.Valid() && Below(g, next) && Numbered(es, next)
    ensures forall i :: 0 <= i < |es| ==> es[i].0 !in g.items
    ensures forall i, j :: 0 <= i < j < |es| ==> es[i].0 != es[j].0
    ensures Extends(g, PutEntries(g, es), es)
  {
    NumberedDistinct(es, next);
    forall i | 0 <= i < |es| ensures es[i].0 !in g.items {
      assert es[i].0.serial == next + i;
    }
    PutEntriesItems(g, es);
  }

  lemma NumberedDistinct(es: seq<Entry>, next: nat)
    requires Numbered(es, next)
    ensures forall i, j :: 0 <= i < j < |es| ==> es[i].0 != es[j].0
  {
    assert forall i, j :: 0 <= i < j < |es| ==> es[i].0.serial != es[j].0.serial;
  }

  lemma NumberedWorks(es: seq<Entry>, next: nat)
    requires Numbered(es, next)
    ensures forall w :: w in Elems(WorksOf(es)) ==> next <= w.serial < next + |es| && es[w.serial - next].0 == w
  {
    forall w | w in Elems(WorksOf(es)) ensures next <= w.serial < next + |es| && es[w.serial - next].0 == w {
      NumberedWork(es, next, w);
    }
  }

  /** `q` is `g` with the entries `es` added and nothing else changed. */
  predicate Extends(g: WorkGraph, q: WorkGraph, es: seq<Entry>) {
    q.items.Keys == g.items.Keys + Elems(WorksOf(es)) &&
    (forall w :: w in g.items ==> q.items[w] == g.items[w]) &&
    (forall i :: 0 <= i < |es| ==> q.items[es[i].0] == es[i].1)
  }

  /** Where a new work sits among the entries. */
  lemma NumberedWork(es: seq<Entry>, next: nat, w: Work)
    requires Numbered(es, next) && w in Elems(WorksOf(es))
    ensures next <= w.serial < next + |es| && es[w.serial - next].0 == w
  {
    var i :| 0 <= i < |es| && WorksOf(es)[i] == w;
  }

  /** What an entry after the first waits for is an earlier entry. */
  lemma NumberedDep(es: seq<Entry>, next: nat, i: nat, d: Work)
    requires Numbered(es, next) && 1 <= i < |es| && d in es[i].1
    ensures d in Elems(WorksOf(es)) && d.serial < next + i
  {
    var j := d.serial - next;
    assert WorksOf(es)[j] == d;
  }

  lemma ExtendSerials(g: WorkGraph, q: WorkGraph, es: seq<Entry>, next: nat)
    requires Below(g, next) && SerialsUnique(g) && Numbered(es, next) && Extends(g, q, es)
    ensures Below(q, next + |es|) && SerialsUnique(q)
  {
    forall w | w in q.items ensures w.serial < next + |es| {
      if w !in g.items {
        NumberedWork(es, next, w);
      }
    }
    ExtendUnique(g, q, es, next);
  }

  lemma ExtendUnique(g: WorkGraph, q: WorkGraph, es: seq<Entry>, next: nat)
    requires Below(g, next) && SerialsUnique(g) && Numbered(es, next) && Extends(g, q, es)
    ensures SerialsUnique(q)
  {
    forall w, v | w in q.items && v in q.items && w.serial == v.serial ensures w == v {
      SameSerial(g, q, es, next, w, v);
    }
  }

  lemma SameSerial(g: WorkGraph, q: WorkGraph, es: seq<Entry>, next: nat, w: Work, v: Work)
    requires Below(g, next) && SerialsUnique(g) && Numbered(es, next) && Extends(g, q, es)
    requires w in q.items && v in q.items && w.serial == v.serial
    ensures w == v
  {
    if w in g.items && v in g.items {
    } else if w in g.items {
      NumberedWork(es, next, v);
    } else if v in g.items {
      NumberedWork(es, next, w);
    } else {
      NumberedWork(es, next, w);
      NumberedWork(es, next, v);
    }
  }

  lemma ExtendDepsEarlier(g: WorkGraph, q: WorkGraph, es: seq<Entry>, next: nat)
    requires Below(g, next) && DepsEarlier(g) && Numbered(es, next) && Extends(g, q, es)
    requires |es| > 0 && Elems(es[0].1) <= g.items.Keys
    ensures DepsEarlier(q)
  {
    forall w, d | w in q.items && d in q.items[w] ensures d in q.items && d.serial < w.serial {
      DepEarlier(g, q, es, next, w, d);
    }
  }

  lemma DepEarlier(g: WorkGraph, q: WorkGraph, es: seq<Entry>, next: nat, w: Work, d: Work)
    requires Below(g, next) && DepsEarlier(g) && Numbered(es, next) && Extends(g, q, es)
    requires |es| > 0 && Elems(es[0].1) <= g.items.Keys
    requires w in q.items && d in q.items[w]
    ensures d in q.items && d.serial < w.serial
  {
    if w !in g.items {
      NewDepEarlier(g, q, es, next, w, d);
    } else {
      assert q.items[w] == g.items[w];
    }
  }

  lemma NewDepEarlier(g: WorkGraph, q: WorkGraph, es: seq<Entry>, next: nat, w: Work, d: Work)
    requires Below(g, next) && Numbered(es, next) && Extends(g, q, es)
    requires |es| > 0 && Elems(es[0].1) <= g.items.Keys
    requires w in q.items && w !in g.items && d in q.items[w]
    ensures d in q.items && d.serial < w.serial
  {
    NumberedWork(es, next, w);
    var i := w.serial - next;
    assert q.items[w] == es[i].1;
    if i > 0 {
      NumberedDep(es, next, i, d);
    } else {
      assert d in g.items;
    }
  }

  lemma ExtendDepsDistinct(g: WorkGraph, q: WorkGraph, es: seq<Entry>, next: nat)
    requires DepsDistinct(g) && Numbered(es, next) && Extends(g, q, es)
    requires |es| > 0 && Distinct(es[0].1)
    ensures DepsDistinct(q)
  {
    forall w | w in q.items ensures Distinct(q.items[w]) {
      if w !in g.items {
        NumberedWork(es, next, w);
      }
    }
  }

  lemma StepPreNumbering(p: Plan, n: OciNode, pre: seq<Work>, push: bool, notPushed: set<string>)
    requires Numbering(p) && Distinct(pre) && Elems(pre) <= p.graph.items.Keys
    ensures Numbering(StepPre(p, n, pre, push, notPushed))
  {
    var q := StepPre(p, n, pre, push, notPushed);
    var es := StepPreFacts(p, n, pre, push, notPushed);
    EntriesFresh(p.graph, n, pre, push, notPushed, p.next);
    ExtendSerials(p.graph, q.graph, es, p.next);
    ExtendDepsEarlier(p.graph, q.graph, es, p.next);
    ExtendDepsDistinct(p.graph, q.graph, es, p.next);
  }

  /** Ownership after a step: the new work is made for `n`. */
  lemma ExtendOwned(p: Plan, q: Plan, n: OciNode, es: seq<Entry>)
    requires Owned(p) && n !in p.made && Extends(p.graph, q.graph, es)
    requires q.made == p.made[n := WorksOf(es)] && q.down.Keys == p.down.Keys + {n}
    ensures Owned(q)
  {
    forall w | w in q.graph.items ensures exists m :: m in q.made && w in q.made[m] {
      if w in p.graph.items {
        var m :| m in p.made && w in p.made[m];
        assert q.made[m] == p.made[m];
      } else {
        assert w in q.made[n];
      }
    }
  }

  lemma StepPreHandoff(p: Plan, n: OciNode, pre: seq<Work>, push: bool, notPushed: set<string>)
    requires p.graph.Valid() && Below(p.graph, p.next) && Handoff(p) && n !in p.down
    ensures Handoff(StepPre(p, n, pre, push, notPushed))
  {
    var q := StepPre(p, n, pre, push, notPushed);
    var es := StepPreFacts(p, n, pre, push, notPushed);
    StepPreKeeps(p, n, pre, push, notPushed);
    StepPreMade(p, n, pre, push, notPushed);
    var dn := Downstream(n, es, push);
    DownstreamNew(n, es, push, p.next);
    forall m | m in p.down ensures Elems(p.down[m]) !! Elems(dn) {
      forall w | w in Elems(p.down[m]) ensures w !in Elems(dn) {
        assert w in p.graph.items && w.serial < p.next;
      }
    }
    HandoffAdd(p, q, n, dn);
  }

  /** What a node hands over is among its entries, numbered from `next`
      on. */
  lemma DownstreamNew(n: OciNode, es: seq<Entry>, push: bool, next: nat)
    requires |es| > 0 && Numbered(es, next)
    ensures forall w :: w in Downstream(n, es, push) ==> w.serial >= next && w in Elems(WorksOf(es))
  {
    forall w | w in Downstream(n, es, push) ensures w.serial >= next && w in Elems(WorksOf(es)) {
      DownstreamWork(n, es, push, next, w);
    }
  }

  lemma DownstreamWork(n: OciNode, es: seq<Entry>, push: bool, next: nat, w: Work)
    requires |es| > 0 && Numbered(es, next) && w in Downstream(n, es, push)
    ensures w.serial >= next && w in Elems(WorksOf(es))
  {
    var i :| 0 <= i < |es| && es[i].0 == w;
    assert WorksOf(es)[i] == w;
  }

  /** Handing over `dn` for a new node keeps the hand-over disjoint when
      `dn` is new work. */
  lemma HandoffAdd(p: Plan, q: Plan, n: OciNode, dn: seq<Work>)
    requires Handoff(p) && n !in p.down && q.down == p.down[n := dn]
    requires p.graph.items.Keys <= q.graph.items.Keys
    requires Distinct(dn) && Elems(dn) <= q.graph.items.Keys
    requires forall m :: m in p.down ==> Elems(p.down[m]) !! Elems(dn)
    ensures Handoff(q)
  {
  }

  lemma StepPreOwned(p: Plan, n: OciNode, pre: seq<Work>, push: bool, notPushed: set<string>)
    requires p.graph.Valid() && Below(p.graph, p.next) && Owned(p) && n !in p.down
    ensures Owned(StepPre(p, n, pre, push, notPushed))
  {
    var q := StepPre(p, n, pre, push, notPushed);
    var es := StepPreFacts(p, n, pre, push, notPushed);
    EntriesFresh(p.graph, n, pre, push, notPushed, p.next);
    ExtendOwned(p, q, n, es);
  }

  lemma StepGood(p: Plan, n: OciNode, deps: seq<OciNode>, push: bool, notPushed: set<string>)
    requires Good(p) && n !in p.down && Distinct(deps) && Elems(deps) <= p.down.Keys
    ensures Good(Step(p, n, deps, push, notPushed))
  {
    var pre := Prereqs(p.down, deps);
    PrereqsGood(p, deps);
    StepPreNumbering(p, n, pre, push, notPushed);
    StepPreHandoff(p, n, pre, push, notPushed);
    StepPreOwned(p, n, pre, push, notPushed);
  }

  /** The work made for node `n` of `g` is the work `build_graph` writes
      for it: its entries, numbered from the first work made for it and
      waiting for what its dependencies hand over, are in the graph. */
  predicate Made(p: Plan, g: OciGraph, push: bool, notPushed: set<string>, n: OciNode) {
    n in g.items && n in p.made && n in p.down && |p.made[n]| > 0 && Elems(g.items[n]) <= p.down.Keys &&
    var es := Entries(n, Prereqs(p.down, g.items[n]), push, notPushed, p.made[n][0].serial);
    p.made[n] == WorksOf(es) && p.down[n] == Downstream(n, es, push) &&
    forall i :: 0 <= i < |es| ==> es[i].0 in p.graph.items && p.graph.items[es[i].0] == es[i].1
  }

  /** A step makes the work of its node. */
  lemma StepMade(p: Plan, g: OciGraph, push: bool, notPushed: set<string>, n: OciNode)
    requires p.graph.Valid() && Below(p.graph, p.next)
    requires n in g.items && n !in p.down && p.down.Keys == p.made.Keys && Elems(g.items[n]) <= p.down.Keys
    ensures Made(Step(p, n, g.items[n], push, notPushed), g, push, notPushed, n)
  {
    var q := Step(p, n, g.items[n], push, notPushed);
    StepPreMade(p, n, Prereqs(p.down, g.items[n]), push, notPushed);
    PrereqsAgree(p.down, q.down, g.items[n]);
  }

  lemma StepPreMade(p: Plan, n: OciNode, pre: seq<Work>, push: bool, notPushed: set<string>)
    requires p.graph.Valid() && Below(p.graph, p.next)
    ensures var q := StepPre(p, n, pre, push, notPushed);
      var es := Entries(n, pre, push, notPushed, p.next);
      n in q.made && n in q.down && q.down.Keys == p.down.Keys + {n} && q.made.Keys == p.made.Keys + {n} &&
      |q.made[n]| > 0 && q.made[n][0].serial == p.next &&
      q.made[n] == WorksOf(es) && q.down[n] == Downstream(n, es, push) &&
      forall i :: 0 <= i < |es| ==> es[i].0 in q.graph.items && q.graph.items[es[i].0] == es[i].1
  {
    var es := StepPreFacts(p, n, pre, push, notPushed);
    assert WorksOf(es)[0] == es[0].0;
    StepPreHas(p, n, pre, push, notPushed);
  }

  /** The graph after a step holds the entries of its node. */
  lemma StepPreHas(p: Plan, n: OciNode, pre: seq<Work>, push: bool, notPushed: set<string>)
    requires p.graph.Valid() && Below(p.graph, p.next)
    ensures var q := StepPre(p, n, pre, push, notPushed);
      var es := Entries(n, pre, push, notPushed, p.next);
      forall i :: 0 <= i < |es| ==> es[i].0 in q.graph.items && q.graph.items[es[i].0] == es[i].1
  {
    var es := StepPreFacts(p, n, pre, push, notPushed);
    EntriesFresh(p.graph, n, pre, push, notPushed, p.next);
    ExtendsHas(p.graph, PutEntries(p.graph, es), es);
  }

  lemma ExtendsHas(g: WorkGraph, q: WorkGraph, es: seq<Entry>)
    requires Extends(g, q, es)
    ensures forall i :: 0 <= i < |es| ==> es[i].0 in q.items && q.items[es[i].0] == es[i].1
  {
    forall i | 0 <= i < |es| ensures es[i].0 in q.items {
      assert WorksOf(es)[i] == es[i].0;
    }
  }

  /** A step keeps the work already made. */
  lemma StepKeepsMade(p: Plan, g: OciGraph, push: bool, notPushed: set<string>, n: OciNode, m: OciNode)
    requires p.graph.Valid() && Below(p.graph, p.next)
    requires n in g.items && n !in p.down && Elems(g.items[n]) <= p.down.Keys
    requires Made(p, g, push, notPushed, m)
    ensures Made(Step(p, n, g.items[n], push, notPushed), g, push, notPushed, m)
  {
    var q := Step(p, n, g.items[n], push, notPushed);
    StepPreKeeps(p, n, Prereqs(p.down, g.items[n]), push, notPushed);
    PrereqsAgree(p.down, q.down, g.items[m]);
    KeepsMade(p, q, g, push, notPushed, m);
  }

  /** A step changes nothing it does not add. */
  lemma StepPreKeeps(p: Plan, n: OciNode, pre: seq<Work>, push: bool, notPushed: set<string>)
    requires p.graph.Valid() && Below(p.graph, p.next)
    ensures var q := StepPre(p, n, pre, push, notPushed);
      (forall w :: w in p.graph.items ==> w in q.graph.items && q.graph.items[w] == p.graph.items[w]) &&
      (forall m :: m in p.down && m != n ==> m in q.down && q.down[m] == p.down[m]) &&
      (forall m :: m in p.made && m != n ==> m in q.made && q.made[m] == p.made[m]) &&
      q.down.Keys == p.down.Keys + {n}
  {
    var es := StepPreFacts(p, n, pre, push, notPushed);
    EntriesFresh(p.graph, n, pre, push, notPushed, p.next);
  }

  /** Work made for `m` stays made in a plan that keeps the graph, the
      work of `m` and what the dependencies of `m` hand over. */
  lemma KeepsMade(p: Plan, q: Plan, g: OciGraph, push: bool, notPushed: set<string>, m: OciNode)
    requires Made(p, g, push, notPushed, m)
    requires forall w :: w in p.graph.items ==> w in q.graph.items && q.graph.items[w] == p.graph.items[w]
    requires m in q.made && q.made[m] == p.made[m] && m in q.down && q.down[m] == p.down[m]
    requires p.down.Keys <= q.down.Keys && Prereqs(q.down, g.items[m]) == Prereqs(p.down, g.items[m])
    ensures Made(q, g, push, notPushed, m)
  {
  }

  /** A step keeps the graph well formed and numbered below `next`. */
  lemma StepBelow(p: Plan, n: OciNode, deps: seq<OciNode>, push: bool, notPushed: set<string>)
    requires p.graph.Valid() && Below(p.graph, p.next) && Elems(deps) <= p.down.Keys
    ensures var q := Step(p, n, deps, push, notPushed);
      q.graph.Valid() && Below(q.graph, q.next) && q.down.Keys == p.down.Keys + {n}
  {
    StepPreBelow(p, n, Prereqs(p.down, deps), push, notPushed);
  }

  lemma StepPreBelow(p: Plan, n: OciNode, pre: seq<Work>, push: bool, notPushed: set<string>)
    requires p.graph.Valid() && Below(p.graph, p.next)
    ensures var q := StepPre(p, n, pre, push, notPushed);
      q.graph.Valid() && Below(q.graph, q.next) && q.down.Keys == p.down.Keys + {n}
  {
    var q := StepPre(p, n, pre, push, notPushed);
    var es := StepPreFacts(p, n, pre, push, notPushed);
    EntriesFresh(p.graph, n, pre, push, notPushed, p.next);
    forall w | w in q.graph.items ensures w.serial < q.next {
      if w !in p.graph.items {
        NumberedWork(es, p.next, w);
      }
    }
  }

  /** The dependencies of each node of `order` are handled before it. */
  predicate DepsBefore(g: OciGraph, order: seq<OciNode>, done: set<OciNode>) {
    Elems(order) <= g.items.Keys &&
    forall i :: 0 <= i < |order| ==> Elems(g.items[order[i]]) <= done + Elems(order[..i])
  }

  lemma DepsBeforeTail(g: OciGraph, order: seq<OciNode>, done: set<OciNode>)
    requires |order| > 0 && DepsBefore(g, order, done)
    ensures Elems(g.items[order[0]]) <= done
    ensures DepsBefore(g, order[1..], done + {order[0]})
  {
    assert Elems(order[..0]) == {};
    forall i | 0 <= i < |order| - 1 ensures Elems(g.items[order[1..][i]]) <= done + {order[0]} + Elems(order[1..][..i]) {
      assert order[..i + 1] == [order[0]] + order[1..][..i];
      ElemsAppend([order[0]], order[1..][..i]);
    }
  }

  /** The loop of `build_graph` over the nodes in `order`. */
  function Plant(g: OciGraph, push: bool, notPushed: set<string>, order: seq<OciNode>, p: Plan): Plan
    requires p.graph.Valid() && Below(p.graph, p.next) && DepsBefore(g, order, p.down.Keys)
    decreases |order|
  {
    if |order| == 0 then p
    else
      var n := order[0];
      DepsBeforeTail(g, order, p.down.Keys);
      StepBelow(p, n, g.items[n], push, notPushed);
      Plant(g, push, notPushed, order[1..], Step(p, n, g.items[n], push, notPushed))
  }

  /** The work of every node in `ks` is made. */
  predicate AllMade(p: Plan, g: OciGraph, push: bool, notPushed: set<string>, ks: set<OciNode>) {
    forall m {:trigger Made(p, g, push, notPushed, m)} :: m in ks ==> Made(p, g, push, notPushed, m)
  }

  lemma AllMadeAdd(p: Plan, g: OciGraph, push: bool, notPushed: set<string>, ks: set<OciNode>, n: OciNode)
    requires AllMade(p, g, push, notPushed, ks) && Made(p, g, push, notPushed, n)
    ensures AllMade(p, g, push, notPushed, ks + {n})
  {
  }

  lemma StepAllMade(p: Plan, g: OciGraph, push: bool, notPushed: set<string>, n: OciNode)
    requires p.graph.Valid() && Below(p.graph, p.next)
    requires n in g.items && n !in p.down && p.down.Keys == p.made.Keys && Elems(g.items[n]) <= p.down.Keys
    requires AllMade(p, g, push, notPushed, p.down.Keys)
    ensures var q := Step(p, n, g.items[n], push, notPushed);
      q.down.Keys == q.made.Keys && AllMade(q, g, push, notPushed, p.down.Keys + {n})
  {
    StepMade(p, g, push, notPushed, n);
    StepKeepsAllMade(p, g, push, notPushed, n);
    AllMadeAdd(Step(p, n, g.items[n], push, notPushed), g, push, notPushed, p.down.Keys, n);
  }

  lemma StepKeepsAllMade(p: Plan, g: OciGraph, push: bool, notPushed: set<string>, n: OciNode)
    requires p.graph.Valid() && Below(p.graph, p.next)
    requires n in g.items && n !in p.down && Elems(g.items[n]) <= p.down.Keys
    requires AllMade(p, g, push, notPushed, p.down.Keys)
    ensures AllMade(Step(p, n, g.items[n], push, notPushed), g, push, notPushed, p.down.Keys)
  {
    forall m | m in p.down ensures Made(Step(p, n, g.items[n], push, notPushed), g, push, notPushed, m) {
      StepKeepsMade(p, g, push, notPushed, n, m);
    }
  }

  /** The loop keeps the work graph well numbered. */
  lemma {:induction false} PlantGood(g: OciGraph, push: bool, notPushed: set<string>, order: seq<OciNode>, p: Plan)
    requires DepsBefore(g, order, p.down.Keys) && DepsKnown(g) && Good(p)
    requires Distinct(order) && Elems(order) !! p.down.Keys
    ensures Good(Plant(g, push, notPushed, order, p))
    decreases |order|
  {
    if |order| > 0 {
      var n := order[0];
      DepsBeforeTail(g, order, p.down.Keys);
      StepBelow(p, n, g.items[n], push, notPushed);
      StepGood(p, n, g.items[n], push, notPushed);
      DistinctTail(order);
      PlantGood(g, push, notPushed, order[1..], Step(p, n, g.items[n], push, notPushed));
    }
  }

  /** The loop handles every node of `order` and makes its work. */
  lemma {:induction false} PlantMade(g: OciGraph, push: bool, notPushed: set<string>, order: seq<OciNode>, p: Plan)
    requires p.graph.Valid() && Below(p.graph, p.next) && DepsBefore(g, order, p.down.Keys)
    requires p.down.Keys == p.made.Keys && Distinct(order) && Elems(order) !! p.down.Keys
    requires AllMade(p, g, push, notPushed, p.down.Keys)
    ensures var r := Plant(g, push, notPushed, order, p);
      r.down.Keys == p.down.Keys + Elems(order) && AllMade(r, g, push, notPushed, r.down.Keys)
    decreases |order|
  {
    if |order| > 0 {
      var n := order[0];
      DepsBeforeTail(g, order, p.down.Keys);
      StepBelow(p, n, g.items[n], push, notPushed);
      StepAllMade(p, g, push, notPushed, n);
      var q := Step(p, n, g.items[n], push, notPushed);
      DistinctTail(order);
      ElemsCons(order);
      PlantMade(g, push, notPushed, order[1..], q);
      PlantKeys(p.down.Keys, q.down.Keys, Plant(g, push, notPushed, order[1..], q).down.Keys, n, Elems(order[1..]));
    } else {
      assert Plant(g, push, notPushed, order, p) == p;
      NoElems(order, p.down.Keys);
    }
  }

  lemma NoElems(s: seq<OciNode>, a: set<OciNode>)
    requires |s| == 0
    ensures a + Elems(s) == a
  {
  }

  lemma PlantKeys(a: set<OciNode>, b: set<OciNode>, c: set<OciNode>, n: OciNode, rest: set<OciNode>)
    requires b == a + {n} && c == b + rest
    ensures c == a + ({n} + rest)
  {
  }

  // ---------------------------------------------------------------------
  // The whole graph

  /** The OCI graph as a dependency graph, for the topological sort. */
  function OciDeps(g: OciGraph): (r: Graph<OciNode>)
    requires g.Valid() && DepsKnown(g)
    ensures Closed(r) && r.Keys == g.items.Keys && Elems(g.keys) == r.Keys
    ensures forall n :: n in r ==> r[n] == Elems(g.items[n])
  {
    map n | n in g.items :: Elems(g.items[n])
  }

  function EmptyPlan(): (p: Plan)
    ensures Good(p) && p.down.Keys == {} && p.down.Keys == p.made.Keys
  {
    Plan(Dict([], map[]), map[], map[], 0)
  }

  lemma OrderDepsBefore(g: OciGraph, order: seq<OciNode>)
    requires g.Valid() && DepsKnown(g) && IsOrder(OciDeps(g), order)
    ensures DepsBefore(g, order, {}) && Distinct(order) && Elems(order) == g.items.Keys
  {
    var dg := OciDeps(g);
    forall i | 0 <= i < |order| ensures Elems(g.items[order[i]]) <= {} + Elems(order[..i]) {
      assert dg[order[i]] <= Elems(order[..i]);
    }
  }

  /** `build_graph`, with the plan it builds: the nodes in a topological
      order of the OCI graph, each handled in turn. */
  function BuildPlan(g: OciGraph, push: bool): Result<Plan, Error>
    requires g.Valid() && DepsKnown(g)
  {
    var order :- TopoSort(OciDeps(g), g.keys);
    OrderDepsBefore(g, order);
    Success(Plant(g, push, NotPushed(g, push), order, EmptyPlan()))
  }

  /** `build_graph` fails, with a `CycleError`, exactly when the OCI
      graph has no topological order. */
  lemma BuildPlanFails(g: OciGraph, push: bool)
    requires g.Valid() && DepsKnown(g)
    ensures BuildPlan(g, push).Failure? <==> !exists order :: IsOrder(OciDeps(g), order)
    ensures BuildPlan(g, push).Failure? ==> BuildPlan(g, push).error == CycleError
  {
    TopoSortComplete(OciDeps(g), g.keys);
  }

  /** A plan built numbers the work graph. */
  lemma BuildPlanGood(g: OciGraph, push: bool)
    requires g.Valid() && DepsKnown(g) && BuildPlan(g, push).Success?
    ensures Good(BuildPlan(g, push).value)
  {
    var order := TopoSort(OciDeps(g), g.keys).value;
    OrderDepsBefore(g, order);
    PlantGood(g, push, NotPushed(g, push), order, EmptyPlan());
  }

  /** A plan built handles every node of the OCI graph and makes its
      work. */
  lemma BuildPlanMade(g: OciGraph, push: bool)
    requires g.Valid() && DepsKnown(g) && BuildPlan(g, push).Success?
    ensures var p := BuildPlan(g, push).value;
      p.down.Keys == g.items.Keys && AllMade(p, g, push, NotPushed(g, push), g.items.Keys)
  {
    var order := TopoSort(OciDeps(g), g.keys).value;
    OrderDepsBefore(g, order);
    OrderMade(g, push, NotPushed(g, push), order);
  }

  lemma OrderMade(g: OciGraph, push: bool, notPushed: set<string>, order: seq<OciNode>)
    requires DepsBefore(g, order, {}) && Distinct(order) && Elems(order) == g.items.Keys
    ensures var p := Plant(g, push, notPushed, order, EmptyPlan());
      p.down.Keys == g.items.Keys && AllMade(p, g, push, notPushed, p.down.Keys)
  {
    var p0 := EmptyPlan();
    NothingMade(p0, g, push, notPushed);
    PlantMade(g, push, notPushed, order, p0);
  }

  lemma NothingMade(p: Plan, g: OciGraph, push: bool, notPushed: set<string>)
    ensures AllMade(p, g, push, notPushed, {})
  {
  }

  /** The work graph `build_graph` returns. */
  function BuildGraph(g: OciGraph, push: bool): (r: Result<WorkGraph, Error>)
    requires g.Valid() && DepsKnown(g)
    ensures r.Failure? <==> !exists order :: IsOrder(OciDeps(g), order)
    ensures r.Failure? ==> r.error == CycleError
    ensures r.Success? ==> Runnable(r.value)
  {
    BuildPlanFails(g, push);
    var r := BuildPlan(g, push);
    if r.Failure? then Failure(r.error)
    else
      BuildPlanRunnable(g, push);
      Success(r.value.graph)
  }

  lemma BuildPlanRunnable(g: OciGraph, push: bool)
    requires g.Valid() && DepsKnown(g) && BuildPlan(g, push).Success?
    ensures Runnable(BuildPlan(g, push).value.graph)
  {
    BuildPlanGood(g, push);
    GoodRunnable(BuildPlan(g, push).value);
  }

  lemma GoodRunnable(p: Plan)
    requires Good(p)
    ensures Runnable(p.graph)
  {
  }

  // ---------------------------------------------------------------------
  // What the work of each node is

  /** An image is built once, waiting for what its dependencies hand over;
      it is pushed, after the build, exactly when pushing and no manifest
      lists it; its dependents wait for its last work. */
  lemma ImageWork(p: Plan, g: OciGraph, push: bool, notPushed: set<string>, n: OciNode)
    requires Made(p, g, push, notPushed, n) && n.OciImage?
    ensures var ws := p.made[n]; var pushIt := push && n.fqn !in notPushed;
      |ws| == (if pushIt then 2 else 1) &&
      ws[0].action == ImageBuild(n) && p.graph.items[ws[0]] == Prereqs(p.down, g.items[n]) &&
      (pushIt ==> ws[1].action == ImagePush(n) && p.graph.items[ws[1]] == [ws[0]]) &&
      p.down[n] == [ws[|ws| - 1]]
  {
    var es := Entries(n, Prereqs(p.down, g.items[n]), push, notPushed, p.made[n][0].serial);
    assert es[0].0 == p.made[n][0];
    if push && n.fqn !in notPushed {
      assert es[1].0 == p.made[n][1];
    }
  }

  /** A manifest is created, waiting for what its dependencies hand over;
      each image it lists is added, in order, after the creation; when
      pushing, the manifest is pushed after all the additions and its
      dependents wait for the push, and otherwise they wait for the
      additions. */
  lemma ManifestWork(p: Plan, g: OciGraph, push: bool, notPushed: set<string>, n: OciNode)
    requires Made(p, g, push, notPushed, n) && n.OciManifest?
    ensures var ws := p.made[n]; var k := |n.images|;
      |ws| == 1 + k + (if push then 1 else 0) &&
      ws[0].action == ManifestCreate(n) && p.graph.items[ws[0]] == Prereqs(p.down, g.items[n]) &&
      (forall i :: 0 <= i < k ==> ws[1 + i].action == ManifestAdd(n, n.images[i]) && p.graph.items[ws[1 + i]] == [ws[0]]) &&
      (push ==> ws[1 + k].action == ManifestPush(n) && p.graph.items[ws[1 + k]] == ws[1..1 + k] && p.down[n] == [ws[1 + k]]) &&
      (!push ==> p.down[n] == ws[1..])
  {
    var es := Entries(n, Prereqs(p.down, g.items[n]), push, notPushed, p.made[n][0].serial);
    var ws := p.made[n];
    var k := |n.images|;
    assert forall i :: 0 <= i < |es| ==> ws[i] == es[i].0;
    if push {
      assert WorksOf(es[1..1 + k]) == ws[1..1 + k];
    } else {
      assert WorksOf(es[1..]) == ws[1..];
    }
  }

  /** Without pushing, no work made for a node pushes. */
  lemma MadeNoPush(p: Plan, g: OciGraph, notPushed: set<string>, n: OciNode)
    requires Made(p, g, false, notPushed, n)
    ensures forall w :: w in p.made[n] ==> !Pushes(w.action)
  {
    var ws := p.made[n];
    forall w | w in ws ensures !Pushes(w.action) {
      var i :| 0 <= i < |ws| && ws[i] == w;
      if n.OciImage? {
        ImageWork(p, g, false, notPushed, n);
        PushesExactly(n, "");
      } else {
        ManifestWork(p, g, false, notPushed, n);
        if i > 0 {
          PushesExactly(n, n.images[i - 1]);
        } else {
          PushesExactly(n, "");
        }
      }
    }
  }

  /** `build_graph` without `push` makes no work that pushes. */
  lemma NoPushUnlessAsked(g: OciGraph)
    requires g.Valid() && DepsKnown(g) && BuildGraph(g, false).Success?
    ensures forall w :: w in BuildGraph(g, false).value.items ==> !Pushes(w.action)
  {
    var p := BuildPlan(g, false).value;
    var np := NotPushed(g, false);
    BuildPlanGood(g, false);
    BuildPlanMade(g, false);
    forall w | w in p.graph.items ensures !Pushes(w.action) {
      var m :| m in p.made && w in p.made[m];
      assert Made(p, g, false, np, m);
      MadeNoPush(p, g, np, m);
    }
  }
}
