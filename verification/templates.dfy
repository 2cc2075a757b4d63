/** Image and group templates (config.py `ImageTemplate`, `GroupTemplate`,
    `IdResolver`, `BoundImage`): how they are read from a parsed YAML
    document, which parameters they use, which other ids they refer to, and
    how they are bound against a chain of binding sources. */
module Templates {
  import opened Wrappers
  import opened Errors
  import opened Seqs
  import opened Text
  import opened Placeholders
  import opened Binding

  // ---------------------------------------------------------------------
  // Parsed YAML

  /** A value produced by the YAML loader. `YScalar` stands for every
      scalar that is not a string (numbers, booleans); a mapping keeps its
      entries in document order, string keys only. */
  datatype Yaml =
    | YNull
    | YText(text: string)
    | YScalar
    | YList(items: seq<Yaml>)
    | YMap(entries: seq<(string, Yaml)>)

  function Keys(m: seq<(string, Yaml)>): (r: seq<string>)
    ensures |r| == |m| && forall i :: 0 <= i < |m| ==> r[i] == m[i].0
  {
    if |m| == 0 then [] else [m[0].0] + Keys(m[1..])
  }

  /** `m[key]` for a mapping, `None` when the key is absent. */
  function Get(m: seq<(string, Yaml)>, key: string): (r: Option<Yaml>)
    ensures r.None? <==> key !in Keys(m)
    ensures r.Some? ==> (key, r.value) in m
  {
    if |m| == 0 then None
    else if m[0].0 == key then Some(m[0].1)
    else
      assert Keys(m) == [m[0].0] + Keys(m[1..]);
      Get(m[1..], key)
  }

  /** The first of `keys` that is not allowed; `None` when all are. */
  function FirstOutside(keys: seq<string>, allowed: set<string>): (r: Option<string>)
    ensures r.None? <==> forall i :: 0 <= i < |keys| ==> keys[i] in allowed
    ensures r.Some? ==> r.value in keys && r.value !in allowed
  {
    if |keys| == 0 then None
    else if keys[0] !in allowed then Some(keys[0])
    else
      assert forall i :: 1 <= i < |keys| ==> keys[i] == keys[1..][i - 1];
      FirstOutside(keys[1..], allowed)
  }

  /** `FirstOutside` reports the earliest key that is not allowed. */
  lemma {:induction false} FirstOutsideFirst(keys: seq<string>, allowed: set<string>, i: nat)
    requires i < |keys| && keys[i] !in allowed
    requires forall j :: 0 <= j < i ==> keys[j] in allowed
    ensures FirstOutside(keys, allowed) == Some(keys[i])
  {
    if i > 0 {
      assert forall j :: 0 <= j < i - 1 ==> keys[1..][j] == keys[j + 1];
      FirstOutsideFirst(keys[1..], allowed, i - 1);
    }
  }

  // ---------------------------------------------------------------------
  // Id resolvers

  /** `IdResolver`: stands in a build argument for the image `identifier`
      until `Config.bind` resolves it to that image's fully qualified name. */
  datatype IdResolver = IdResolver(identifier: string, resolved: Option<string>)

  /** `IdResolver.resolve`: a resolver can be resolved once only. */
  function Resolve(r: IdResolver, fqn: string): (out: Result<IdResolver, Error>)
    ensures out.Success? <==> r.resolved.None?
    ensures out.Success? ==> out.value == IdResolver(r.identifier, Some(fqn))
    ensures out.Failure? ==> out.error == AlreadyResolved(r.identifier)
  {
    if r.resolved.Some? then Failure(AlreadyResolved(r.identifier))
    else Success(r.(resolved := Some(fqn)))
  }

  /** `str(IdResolver)`: the identifier before resolution, the resolved name after. */
  function Show(r: IdResolver): string {
    if r.resolved.None? then r.identifier else r.resolved.value
  }

  /** A fresh resolver renders as its identifier, a resolved one as what it
      was resolved to, and resolving it again fails. */
  lemma ResolveOnce(id: string, fqn: string, other: string)
    ensures Show(IdResolver(id, None)) == id
    ensures Resolve(IdResolver(id, None), fqn).Success?
    ensures Show(Resolve(IdResolver(id, None), fqn).value) == fqn
    ensures Resolve(Resolve(IdResolver(id, None), fqn).value, other) == Failure(AlreadyResolved(id))
  {
  }

  // ---------------------------------------------------------------------
  // Templates

  /** A build-argument value: text, or (after `inject_resolver`) the
      resolver of the image whose id the text was. */
  datatype ArgValue = Text(text: string) | Ref(id: string)

  /** The text a value was written as; a resolver was the id of its image. */
  function ArgText(v: ArgValue): string {
    match v
    case Text(s) => s
    case Ref(id) => id
  }

  datatype ImageTemplate = ImageTemplate(
    id: string,
    name: string,
    registry: string,
    tag: string,
    context: string,
    args: seq<(string, ArgValue)>)

  datatype GroupTemplate = GroupTemplate(
    id: string,
    images: seq<string>,
    architectures: seq<Arch>,
    parameters: seq<(string, string)>)

  datatype Template = Image(image: ImageTemplate) | Group(group: GroupTemplate)
  {
    function Id(): string {
      match this
      case Image(t) => t.id
      case Group(t) => t.id
    }
  }

  /** What `parse_from` hands back: a template, or the `ParseError` it
      returns (instead of raising) for an unknown field. */
  datatype Parsed = Parsed(template: Template) | Returned(problem: ParseProblem)

  /** A variant is used only when it is truthy: present and not empty. */
  predicate Truthy(v: Option<string>) {
    v.Some? && v.value != ""
  }

  // ---------------------------------------------------------------------
  // Parameters (`Template._extract_parameters` over each field)

  function ArgParams(args: seq<(string, ArgValue)>): (r: seq<string>)
    ensures forall i :: 0 <= i < |args| ==> forall p :: p in FindAll(args[i].0) + FindAll(ArgText(args[i].1)) ==> p in r
    ensures forall p :: p in r ==> exists i :: 0 <= i < |args| && p in FindAll(args[i].0) + FindAll(ArgText(args[i].1))
  {
    if |args| == 0 then []
    else
      var rest := ArgParams(args[1..]);
      assert forall i :: 1 <= i < |args| ==> args[i] == args[1..][i - 1];
      FindAll(args[0].0) + FindAll(ArgText(args[0].1)) + rest
  }

  /** The parameters of an image: the placeholders of its name, registry,
      tag and context, then of each build-argument name and value. */
  function ImageParams(t: ImageTemplate): seq<string> {
    FindAll(t.name) + FindAll(t.registry) + FindAll(t.tag) + FindAll(t.context) + ArgParams(t.args)
  }

  function PairParams(ps: seq<(string, string)>): (r: seq<string>)
    ensures forall i :: 0 <= i < |ps| ==> forall p :: p in FindAll(ps[i].0) + FindAll(ps[i].1) ==> p in r
    ensures forall p :: p in r ==> exists i :: 0 <= i < |ps| && p in FindAll(ps[i].0) + FindAll(ps[i].1)
  {
    if |ps| == 0 then []
    else
      var rest := PairParams(ps[1..]);
      assert forall i :: 1 <= i < |ps| ==> ps[i] == ps[1..][i - 1];
      FindAll(ps[0].0) + FindAll(ps[0].1) + rest
  }

  function ArchParams(arches: seq<Arch>): seq<string> {
    if |arches| == 0 then []
    else
      var a := arches[0];
      FindAll(a.name) + (if Truthy(a.variant) then FindAll(a.variant.value) else []) + ArchParams(arches[1..])
  }

  function ImageListParams(images: seq<string>): seq<string> {
    if |images| == 0 then [] else FindAll(images[0]) + ImageListParams(images[1..])
  }

  /** The parameters of a group: the placeholders of its image ids, of each
      architecture and truthy variant, then of each parameter name and value. */
  function GroupParams(t: GroupTemplate): seq<string> {
    ImageListParams(t.images) + ArchParams(t.architectures) + PairParams(t.parameters)
  }

  function Params(t: Template): seq<string> {
    match t
    case Image(i) => ImageParams(i)
    case Group(g) => GroupParams(g)
  }

  /** Every parameter of a template is a well-formed name. */
  lemma ParamsAreNames(t: Template)
    ensures forall p :: p in Params(t) ==> IsName(p)
  {
    forall s: string ensures forall p :: p in FindAll(s) ==> IsName(p) {
      FindAllNames(s);
    }
    match t
    case Image(i) =>
    case Group(g) =>
      ImageListParamsNames(g.images);
      ArchParamsNames(g.architectures);
  }

  lemma {:induction false} ImageListParamsNames(images: seq<string>)
    ensures forall p :: p in ImageListParams(images) ==> IsName(p)
  {
    if |images| > 0 {
      FindAllNames(images[0]);
      ImageListParamsNames(images[1..]);
    }
  }

  lemma {:induction false} ArchParamsNames(arches: seq<Arch>)
    ensures forall p :: p in ArchParams(arches) ==> IsName(p)
  {
    if |arches| > 0 {
      FindAllNames(arches[0].name);
      if Truthy(arches[0].variant) { FindAllNames(arches[0].variant.value); }
      ArchParamsNames(arches[1..]);
    }
  }

  // ---------------------------------------------------------------------
  // ImageTemplate.parse_from and __init__

  const ImageFields: set<string> := {"name", "registry", "tag", "build"}
  const BuildFields: set<string> := {"context", "args"}

  /** An optional name, registry or tag: absent or null gives the default
      placeholder, a string is kept, anything else is a `TypeError` once
      `re.findall` sees it. */
  function FieldText(v: Option<Yaml>, default: string): (r: Result<string, Error>)
    ensures (v.None? || v == Some(YNull)) ==> r == Success(default)
    ensures (v.Some? && v.value.YText?) ==> r == Success(v.value.text)
    ensures r.Failure? <==> v.Some? && !v.value.YNull? && !v.value.YText?
  {
    match v
    case None => Success(default)
    case Some(YNull) => Success(default)
    case Some(YText(s)) => Success(s)
    case Some(_) => Failure(TypeError)
  }

  /** Build arguments: each value must be a string. */
  function ArgValues(m: seq<(string, Yaml)>): (r: Result<seq<(string, ArgValue)>, Error>)
    ensures r.Success? <==> forall i :: 0 <= i < |m| ==> m[i].1.YText?
    ensures r.Success? ==> (|r.value| == |m| &&
      forall i :: 0 <= i < |m| ==> r.value[i] == (m[i].0, Text(m[i].1.text)))
    ensures r.Failure? ==> r.error == TypeError
  {
    if |m| == 0 then Success([])
    else if !m[0].1.YText? then Failure(TypeError)
    else
      assert forall i :: 1 <= i < |m| ==> m[i] == m[1..][i - 1];
      var rest :- ArgValues(m[1..]);
      Success([(m[0].0, Text(m[0].1.text))] + rest)
  }

  /** `ImageTemplate.parse_from(id, m)` followed by the constructor. The
      checks run in the source's order: unknown top-level field (returned),
      `build` that is missing or not a mapping, unknown `build` field
      (returned), missing `context`, `args` that is not a mapping, null
      `context`, and finally values that are not strings. */
  function ParseImage(id: string, m: seq<(string, Yaml)>): (r: Result<Parsed, Error>)
    ensures FirstOutside(Keys(m), ImageFields).Some? ==>
      r == Success(Returned(UnknownImageField(id, FirstOutside(Keys(m), ImageFields).value)))
    ensures r.Success? && r.value.Parsed? ==>
      r.value.template.Image? && r.value.template.image.id == id &&
      Get(m, "build").Some? && Get(m, "build").value.YMap? &&
      Get(Get(m, "build").value.entries, "context").Some? &&
      Get(Get(m, "build").value.entries, "context").value == YText(r.value.template.image.context)
    ensures r.Success? && r.value.Parsed? ==>
      var t := r.value.template.image;
      FieldText(Get(m, "name"), "${name}") == Success(t.name) &&
      FieldText(Get(m, "registry"), "${registry}") == Success(t.registry) &&
      FieldText(Get(m, "tag"), "${tag}") == Success(t.tag)
    ensures r.Success? && r.value.Parsed? ==>
      forall j :: 0 <= j < |r.value.template.image.args| ==> r.value.template.image.args[j].1.Text?
    ensures FirstOutside(Keys(m), ImageFields).None? && Get(m, "build").None? ==> r == Failure(KeyError("build"))
    ensures FirstOutside(Keys(m), ImageFields).None? && Get(m, "build").Some? && !Get(m, "build").value.YMap? ==>
      r == Failure(AttributeError)
    ensures FirstOutside(Keys(m), ImageFields).None? && Get(m, "build").Some? && Get(m, "build").value.YMap? ==>
      var b := Get(m, "build").value.entries;
      (FirstOutside(Keys(b), BuildFields).Some? ==>
        r == Success(Returned(UnknownBuildField(id, FirstOutside(Keys(b), BuildFields).value)))) &&
      (FirstOutside(Keys(b), BuildFields).None? && Get(b, "context") in {None, Some(YNull)} ==>
        r.Failure?) &&
      (FirstOutside(Keys(b), BuildFields).None? && Get(b, "context").None? ==>
        r == Failure(ParseError(MissingContext(id))))
    ensures r.Success? && r.value.Parsed? ==>
      var b := Get(m, "build").value.entries;
      var args := Get(b, "args");
      (args.None? || args.value.YMap?) &&
      ArgValues(if args.Some? then args.value.entries else []) == Success(r.value.template.image.args)
    ensures r.Failure? ==> r.error in {KeyError("build"), AttributeError, ParseError(MissingContext(id)), TypeError}
    ensures r.Success? && r.value.Parsed? <==>
      FirstOutside(Keys(m), ImageFields).None? && Get(m, "build").Some? && Get(m, "build").value.YMap? &&
      var b := Get(m, "build").value.entries;
      var args := Get(b, "args");
      FirstOutside(Keys(b), BuildFields).None? && Get(b, "context").Some? && Get(b, "context").value.YText? &&
      (args.None? || (args.value.YMap? && ArgValues(args.value.entries).Success?)) &&
      FieldText(Get(m, "name"), "${name}").Success? &&
      FieldText(Get(m, "registry"), "${registry}").Success? &&
      FieldText(Get(m, "tag"), "${tag}").Success?
  {
    match FirstOutside(Keys(m), ImageFields)
    case Some(k) => Success(Returned(UnknownImageField(id, k)))
    case None =>
      match Get(m, "build")
      case None => Failure(KeyError("build"))
      case Some(build) =>
        if !build.YMap? then Failure(AttributeError)
        else match FirstOutside(Keys(build.entries), BuildFields)
        case Some(k) => Success(Returned(UnknownBuildField(id, k)))
        case None =>
          match Get(build.entries, "context")
          case None => Failure(ParseError(MissingContext(id)))
          case Some(ctx) =>
            var args := Get(build.entries, "args");
            if args.Some? && !args.value.YMap? then Failure(AttributeError)
            else if ctx.YNull? then Failure(ParseError(MissingContext(id)))
            else
              var name :- FieldText(Get(m, "name"), "${name}");
              var registry :- FieldText(Get(m, "registry"), "${registry}");
              var tag :- FieldText(Get(m, "tag"), "${tag}");
              if !ctx.YText? then Failure(TypeError)
              else
                var argv :- ArgValues(if args.Some? then args.value.entries else []);
                Success(Parsed(Image(ImageTemplate(id, name, registry, tag, ctx.text, argv))))
  }

  /** The smallest image, a `build` section with only a `context`, gets the
      placeholders `${name}`, `${registry}` and `${tag}`. */
  lemma MinimumImage(id: string, context: string)
    ensures ParseImage(id, [("build", YMap([("context", YText(context))]))]) ==
      Success(Parsed(Image(ImageTemplate(id, "${name}", "${registry}", "${tag}", context, []))))
  {
    var m := [("build", YMap([("context", YText(context))]))];
    var b := [("context", YText(context))];
    assert Keys(m) == ["build"];
    assert Keys(b) == ["context"];
    assert FirstOutside(Keys(m), ImageFields) == None;
    assert FirstOutside(Keys(b), BuildFields) == None;
    assert Get(m, "build") == Some(YMap(b));
    assert Get(b, "context") == Some(YText(context));
    assert Get(b, "args") == None;
    assert Get(m, "name") == None && Get(m, "registry") == None && Get(m, "tag") == None;
  }

  /** ... so those three are parameters of it, besides the context's own. */
  lemma MinimumImageParams(id: string, context: string)
    requires '$' !in context
    ensures ImageParams(ImageTemplate(id, "${name}", "${registry}", "${tag}", context, [])) == ["name", "registry", "tag"]
  {
    NameDefaultParams();
    RegistryDefaultParams();
    TagDefaultParams();
    NoDollarNoParameters(context);
    var t := ImageTemplate(id, "${name}", "${registry}", "${tag}", context, []);
    assert ArgParams(t.args) == [];
    ConcatFour(FindAll(t.name), FindAll(t.registry), FindAll(t.tag), FindAll(t.context), ArgParams(t.args));
  }

  lemma ConcatFour(a: seq<string>, b: seq<string>, c: seq<string>, d: seq<string>, e: seq<string>)
    requires a == ["name"] && b == ["registry"] && c == ["tag"] && d == [] && e == []
    ensures a + b + c + d + e == ["name", "registry", "tag"]
  {
  }

  lemma NameDefaultParams()
    ensures FindAll("${name}") == ["name"]
  {
    BarePlaceholder("name");
    assert "${" + "name" + "}" == "${name}";
  }

  lemma RegistryDefaultParams()
    ensures FindAll("${registry}") == ["registry"]
  {
    BarePlaceholder("registry");
    assert "${" + "registry" + "}" == "${registry}";
  }

  lemma TagDefaultParams()
    ensures FindAll("${tag}") == ["tag"]
  {
    BarePlaceholder("tag");
    assert "${" + "tag" + "}" == "${tag}";
  }

  lemma BarePlaceholder(n: string)
    requires |n| > 0 && forall i :: 0 <= i < |n| ==> 'a' <= n[i] <= 'z'
    ensures FindAll("${" + n + "}") == [n]
  {
    FindAllOfPlaceholder(n);
  }

  // ---------------------------------------------------------------------
  // GroupTemplate.parse_from and __init__

  const GroupFields: set<string> := {"images", "architectures", "parameters"}

  /** An architecture entry `parse_from` accepts: a string, or a list or
      mapping of length two. */
  predicate ArchShaped(y: Yaml) {
    y.YText? || (y.YList? && |y.items| == 2) || (y.YMap? && |y.entries| == 2)
  }

  /** The architecture entries as `parse_from` reads them: a string is an
      architecture without variant; anything with a length must have
      length two and becomes the pair; things without a length are a
      `TypeError`. */
  function ArchEntries(group: string, ys: seq<Yaml>): (r: Result<seq<(Yaml, Yaml)>, Error>)
    ensures r.Success? ==> |r.value| == |ys|
    ensures r.Success? ==> forall i :: 0 <= i < |ys| ==> ys[i].YText? ==> r.value[i] == (ys[i], YNull)
    ensures r.Success? ==> forall i :: 0 <= i < |ys| ==> ys[i].YList? ==>
      |ys[i].items| == 2 && r.value[i] == (ys[i].items[0], ys[i].items[1])
    ensures r.Success? ==> forall i :: 0 <= i < |ys| ==> ys[i].YMap? ==>
      |ys[i].entries| == 2 && r.value[i] == (YText(ys[i].entries[0].0), YText(ys[i].entries[1].0))
    ensures r.Success? <==> forall i :: 0 <= i < |ys| ==> ArchShaped(ys[i])
    ensures r.Failure? ==> r.error in {TypeError, ParseError(InvalidArchitecture(group))}
  {
    if |ys| == 0 then Success([])
    else
      var y := ys[0];
      var pair :- match y
        case YText(_) => Success((y, YNull))
        case YList(xs) =>
          if |xs| != 2 then Failure(ParseError(InvalidArchitecture(group))) else Success((xs[0], xs[1]))
        case YMap(es) =>
          // `tuple` of a mapping is the tuple of its keys
          if |es| != 2 then Failure(ParseError(InvalidArchitecture(group))) else Success((YText(es[0].0), YText(es[1].0)))
        case _ => Failure(TypeError);
      assert forall i :: 1 <= i < |ys| ==> ys[i] == ys[1..][i - 1];
      var rest :- ArchEntries(group, ys[1..]);
      Success([pair] + rest)
  }

  /** The constructor's view of an architecture pair: the architecture must
      be a string, and so must a variant unless it is null. */
  function ArchOf(p: (Yaml, Yaml)): (r: Result<Arch, Error>)
    ensures r.Success? <==> p.0.YText? && (p.1.YNull? || p.1.YText?)
    ensures r.Success? ==> r.value.name == p.0.text && (r.value.variant.None? <==> p.1.YNull?)
  {
    if !p.0.YText? then Failure(TypeError)
    else match p.1
      case YNull => Success(Arch(p.0.text, None))
      case YText(v) => Success(Arch(p.0.text, Some(v)))
      case _ => Failure(TypeError)
  }

  function ArchesOf(ps: seq<(Yaml, Yaml)>): (r: Result<seq<Arch>, Error>)
    ensures r.Success? <==> forall i :: 0 <= i < |ps| ==> ArchOf(ps[i]).Success?
    ensures r.Success? ==> |r.value| == |ps| && forall i :: 0 <= i < |ps| ==> ArchOf(ps[i]) == Success(r.value[i])
    ensures r.Failure? ==> r.error == TypeError
  {
    if |ps| == 0 then Success([])
    else
      assert forall i :: 1 <= i < |ps| ==> ps[i] == ps[1..][i - 1];
      var a :- ArchOf(ps[0]);
      var rest :- ArchesOf(ps[1..]);
      Success([a] + rest)
  }

  function Texts(ys: seq<Yaml>): (r: Result<seq<string>, Error>)
    ensures r.Success? <==> forall i :: 0 <= i < |ys| ==> ys[i].YText?
    ensures r.Success? ==> |r.value| == |ys| && forall i :: 0 <= i < |ys| ==> ys[i] == YText(r.value[i])
    ensures r.Failure? ==> r.error == TypeError
  {
    if |ys| == 0 then Success([])
    else if !ys[0].YText? then Failure(TypeError)
    else
      assert forall i :: 1 <= i < |ys| ==> ys[i] == ys[1..][i - 1];
      var rest :- Texts(ys[1..]);
      Success([ys[0].text] + rest)
  }

  function TextPairs(m: seq<(string, Yaml)>): (r: Result<seq<(string, string)>, Error>)
    ensures r.Success? <==> forall i :: 0 <= i < |m| ==> m[i].1.YText?
    ensures r.Success? ==> |r.value| == |m| && forall i :: 0 <= i < |m| ==> r.value[i] == (m[i].0, m[i].1.text)
    ensures r.Failure? ==> r.error == TypeError
  {
    if |m| == 0 then Success([])
    else if !m[0].1.YText? then Failure(TypeError)
    else
      assert forall i :: 1 <= i < |m| ==> m[i] == m[1..][i - 1];
      var rest :- TextPairs(m[1..]);
      Success([(m[0].0, m[0].1.text)] + rest)
  }

  /** `GroupTemplate.parse_from(id, m)` followed by the constructor, checks
      in the source's order: unknown field (returned), missing `images`,
      `images` not a list, `architectures` not a list, `parameters` not a
      mapping, each architecture entry, an empty `images`, and finally
      values that are not strings. */
  function ParseGroup(id: string, m: seq<(string, Yaml)>): (r: Result<Parsed, Error>)
    ensures FirstOutside(Keys(m), GroupFields).Some? ==>
      r == Success(Returned(UnknownGroupField(id, FirstOutside(Keys(m), GroupFields).value)))
    ensures FirstOutside(Keys(m), GroupFields).None? && Get(m, "images").None? ==>
      r == Failure(ParseError(LacksImages(id)))
    ensures FirstOutside(Keys(m), GroupFields).None? && Get(m, "images").Some? && !Get(m, "images").value.YList? ==>
      r == Failure(ParseError(ImagesNotList(id)))
    ensures r.Success? && r.value.Parsed? ==>
      var g := r.value.template;
      g.Group? && g.group.id == id && |g.group.images| > 0 &&
      Get(m, "images").Some? && Get(m, "images").value == YList(seq(|g.group.images|, i requires 0 <= i < |g.group.images| => YText(g.group.images[i])))
    ensures r.Success? && r.value.Parsed? && Get(m, "architectures").None? ==> r.value.template.group.architectures == []
    ensures r.Success? && r.value.Parsed? ==>
      var arches := Get(m, "architectures");
      (arches.None? || arches.value.YList?) &&
      var entries := ArchEntries(id, if arches.Some? then arches.value.items else []);
      entries.Success? && ArchesOf(entries.value) == Success(r.value.template.group.architectures)
    ensures r.Success? && r.value.Parsed? ==>
      var params := Get(m, "parameters");
      (params.None? || params.value.YMap?) &&
      TextPairs(if params.Some? then params.value.entries else []) == Success(r.value.template.group.parameters)
    ensures FirstOutside(Keys(m), GroupFields).None? && Get(m, "images").Some? && Get(m, "images").value.YList? ==>
      var arches, params := Get(m, "architectures"), Get(m, "parameters");
      (arches.Some? && !arches.value.YList? ==> r == Failure(ParseError(ArchitecturesNotList(id)))) &&
      (!(arches.Some? && !arches.value.YList?) && params.Some? && !params.value.YMap? ==>
        r == Failure(ParseError(ParametersNotMapping(id))))
    ensures r.Failure? ==> r.error in {ParseError(LacksImages(id)), ParseError(ImagesNotList(id)),
      ParseError(ArchitecturesNotList(id)), ParseError(ParametersNotMapping(id)),
      ParseError(InvalidArchitecture(id)), ParseError(NoImages(id)), TypeError}
  {
    match FirstOutside(Keys(m), GroupFields)
    case Some(k) => Success(Returned(UnknownGroupField(id, k)))
    case None => GroupFrom(id, Get(m, "images"), Get(m, "architectures"), Get(m, "parameters"))
  }

  /** `ParseGroup` once the fields are known to be the allowed ones:
      `images`, `architectures` and `parameters` as looked up. */
  function GroupFrom(id: string, images: Option<Yaml>, arches: Option<Yaml>, params: Option<Yaml>): (r: Result<Parsed, Error>)
    ensures images.None? ==> r == Failure(ParseError(LacksImages(id)))
    ensures images.Some? && !images.value.YList? ==> r == Failure(ParseError(ImagesNotList(id)))
    ensures images.Some? && images.value.YList? ==>
      (arches.Some? && !arches.value.YList? ==> r == Failure(ParseError(ArchitecturesNotList(id)))) &&
      (!(arches.Some? && !arches.value.YList?) && params.Some? && !params.value.YMap? ==>
        r == Failure(ParseError(ParametersNotMapping(id))))
    ensures r.Success? ==> r.value.Parsed? && r.value.template.Group?
    ensures r.Success? ==> var g := r.value.template.group;
      g.id == id && |g.images| > 0 &&
      images.Some? && images.value == YList(seq(|g.images|, i requires 0 <= i < |g.images| => YText(g.images[i])))
    ensures r.Success? ==> var g := r.value.template.group;
      (arches.None? || arches.value.YList?) &&
      var entries := ArchEntries(id, if arches.Some? then arches.value.items else []);
      entries.Success? && ArchesOf(entries.value) == Success(g.architectures) &&
      (arches.None? ==> g.architectures == [])
    ensures r.Success? ==>
      (params.None? || params.value.YMap?) &&
      TextPairs(if params.Some? then params.value.entries else []) == Success(r.value.template.group.parameters)
    ensures r.Failure? ==> r.error in {ParseError(LacksImages(id)), ParseError(ImagesNotList(id)),
      ParseError(ArchitecturesNotList(id)), ParseError(ParametersNotMapping(id)),
      ParseError(InvalidArchitecture(id)), ParseError(NoImages(id)), TypeError}
  {
    if images.None? then Failure(ParseError(LacksImages(id)))
    else if !images.value.YList? then Failure(ParseError(ImagesNotList(id)))
    else if arches.Some? && !arches.value.YList? then Failure(ParseError(ArchitecturesNotList(id)))
    else if params.Some? && !params.value.YMap? then Failure(ParseError(ParametersNotMapping(id)))
    else
      var r := GroupOf(id, images.value.items, if arches.Some? then arches.value.items else [],
        if params.Some? then params.value.entries else []);
      r
  }

  /** The constructor's part of `ParseGroup`, once the fields have the
      right shapes: architecture entries, an empty `images`, then values
      that are not strings. */
  function GroupOf(id: string, images: seq<Yaml>, arches: seq<Yaml>, params: seq<(string, Yaml)>): (r: Result<Parsed, Error>)
    ensures r.Success? ==> r.value.Parsed? && r.value.template.Group?
    ensures r.Success? ==> var g := r.value.template.group;
      g.id == id && |g.images| > 0 && Texts(images) == Success(g.images) &&
      ArchEntries(id, arches).Success? && ArchesOf(ArchEntries(id, arches).value) == Success(g.architectures) &&
      TextPairs(params) == Success(g.parameters)
    ensures r.Failure? ==> r.error in {ParseError(InvalidArchitecture(id)), ParseError(NoImages(id)), TypeError}
  {
    var pairs :- ArchEntries(id, arches);
    if |images| == 0 then Failure(ParseError(NoImages(id)))
    else
      var imageIds :- Texts(images);
      var architectures :- ArchesOf(pairs);
      var parameters :- TextPairs(params);
      Success(Parsed(Group(GroupTemplate(id, imageIds, architectures, parameters))))
  }

  /** Architecture entries, on the source's example: `"amd64"` has no
      variant and `["arm64", "v8"]` has one. */
  lemma GroupArchitectures(id: string)
    ensures var m := [("images", YList([YText("a")])),
                      ("architectures", YList([YText("amd64"), YList([YText("arm64"), YText("v8")])]))];
      ParseGroup(id, m) == Success(Parsed(Group(GroupTemplate(id, ["a"], [Arch("amd64", None), Arch("arm64", Some("v8"))], []))))
  {
    var ys := [YText("amd64"), YList([YText("arm64"), YText("v8")])];
    var m := [("images", YList([YText("a")])), ("architectures", YList(ys))];
    assert Keys(m) == ["images", "architectures"];
    assert FirstOutside(Keys(m), GroupFields) == None;
    assert Get(m, "images") == Some(YList([YText("a")]));
    assert Get(m, "architectures") == Some(YList(ys));
    assert Get(m, "parameters") == None;
    var pairs := [(YText("amd64"), YNull), (YText("arm64"), YText("v8"))];
    ExampleArchEntries(id, ys, pairs);
    var texts := Texts([YText("a")]);
    assert texts.Success? && |texts.value| == 1 && texts.value[0] == "a";
    assert texts.value == ["a"];
    var arches := ArchesOf(pairs);
    assert ArchOf(pairs[0]) == Success(Arch("amd64", None));
    assert ArchOf(pairs[1]) == Success(Arch("arm64", Some("v8")));
    assert arches.Success? && |arches.value| == 2;
    assert arches.value == [Arch("amd64", None), Arch("arm64", Some("v8"))];
    assert TextPairs([]) == Success([]);
  }

  lemma ExampleArchEntries(id: string, ys: seq<Yaml>, pairs: seq<(Yaml, Yaml)>)
    requires ys == [YText("amd64"), YList([YText("arm64"), YText("v8")])]
    requires pairs == [(YText("amd64"), YNull), (YText("arm64"), YText("v8"))]
    ensures ArchEntries(id, ys) == Success(pairs)
  {
    var t := ys[1..];
    assert t == [YList([YText("arm64"), YText("v8")])];
    assert t[1..] == [];
    assert ArchEntries(id, t[1..]) == Success([]);
    assert ArchEntries(id, t) == Success([pairs[1]] + []);
    assert ArchEntries(id, ys) == Success([pairs[0]] + ([pairs[1]] + []));
    assert [pairs[0]] + ([pairs[1]] + []) == pairs;
  }

  /** A three-element architecture entry is a `ParseError`. */
  lemma GroupArchitectureTooLong(id: string, a: Yaml, b: Yaml, c: Yaml)
    ensures var m := [("images", YList([YText("x")])), ("architectures", YList([YList([a, b, c])]))];
      ParseGroup(id, m) == Failure(ParseError(InvalidArchitecture(id)))
  {
    var m := [("images", YList([YText("x")])), ("architectures", YList([YList([a, b, c])]))];
    assert Keys(m) == ["images", "architectures"];
    assert FirstOutside(Keys(m), GroupFields) == None;
    assert Get(m, "images") == Some(YList([YText("x")]));
    assert Get(m, "architectures") == Some(YList([YList([a, b, c])]));
  }

  // ---------------------------------------------------------------------
  // uses_id and inject_resolver

  /** The loop of `ImageTemplate.uses_id` over the build arguments. */
  function ArgsUse(args: seq<(string, ArgValue)>, x: string): (r: bool)
    ensures r <==> exists i :: 0 <= i < |args| && ArgText(args[i].1) == x
  {
    if |args| == 0 then false
    else if ArgText(args[0].1) == x then true
    else
      assert forall i :: 1 <= i < |args| ==> args[i] == args[1..][i - 1];
      ArgsUse(args[1..], x)
  }

  /** The loop of `GroupTemplate.uses_id` over the parameters. */
  function ValuesUse(ps: seq<(string, string)>, x: string): (r: bool)
    ensures r <==> exists i :: 0 <= i < |ps| && ps[i].1 == x
  {
    if |ps| == 0 then false
    else if ps[0].1 == x then true
    else
      assert forall i :: 1 <= i < |ps| ==> ps[i] == ps[1..][i - 1];
      ValuesUse(ps[1..], x)
  }

  /** `uses_id`: a template never uses itself; an image uses the ids its
      build-argument values are exactly equal to (text or resolver); a group
      uses its images and the ids its parameter values are equal to. */
  function UsesId(t: Template, x: string): (r: bool)
    ensures t.Image? ==> (r <==> x != t.Id() && exists i :: 0 <= i < |t.image.args| && ArgText(t.image.args[i].1) == x)
    ensures t.Group? ==> (r <==> x != t.Id() && (x in t.group.images || exists i :: 0 <= i < |t.group.parameters| && t.group.parameters[i].1 == x))
  {
    if t.Id() == x then false
    else match t
      case Image(i) => ArgsUse(i.args, x)
      case Group(g) => x in g.images || ValuesUse(g.parameters, x)
  }

  /** `inject_resolver` for one resolver: text equal to its identifier
      becomes a reference to it; nothing changes when the identifier is the
      image's own id. */
  function InjectArgs(args: seq<(string, ArgValue)>, id: string): (r: seq<(string, ArgValue)>)
    ensures |r| == |args|
    ensures forall i :: 0 <= i < |args| ==> r[i].0 == args[i].0 && ArgText(r[i].1) == ArgText(args[i].1)
    ensures forall i :: 0 <= i < |args| ==> r[i].1 == (if args[i].1 == Text(id) then Ref(id) else args[i].1)
  {
    if |args| == 0 then []
    else
      var v := if args[0].1 == Text(id) then Ref(id) else args[0].1;
      [(args[0].0, v)] + InjectArgs(args[1..], id)
  }

  function Inject(t: ImageTemplate, id: string): (r: ImageTemplate)
    ensures r.id == t.id && r.name == t.name && r.registry == t.registry && r.tag == t.tag && r.context == t.context
  {
    if t.id == id then t else t.(args := InjectArgs(t.args, id))
  }

  /** Injecting keeps the parameters and the ids used. */
  lemma InjectKeepsText(t: ImageTemplate, id: string)
    ensures ImageParams(Inject(t, id)) == ImageParams(t)
    ensures forall x :: UsesId(Image(Inject(t, id)), x) == UsesId(Image(t), x)
  {
    if t.id != id {
      InjectArgParams(t.args, id);
    }
  }

  lemma {:induction false} InjectArgParams(args: seq<(string, ArgValue)>, id: string)
    ensures ArgParams(InjectArgs(args, id)) == ArgParams(args)
  {
    if |args| > 0 {
      InjectArgParams(args[1..], id);
      assert InjectArgs(args, id)[1..] == InjectArgs(args[1..], id);
    }
  }

  /** Injecting the resolvers of all of `ids`, one after the other. */
  function InjectAll(t: ImageTemplate, ids: seq<string>): (r: ImageTemplate)
    ensures r.id == t.id && r.name == t.name && r.registry == t.registry && r.tag == t.tag && r.context == t.context
    ensures |r.args| == |t.args|
    decreases |ids|
  {
    if |ids| == 0 then t else InjectAll(Inject(t, ids[0]), ids[1..])
  }

  /** After injection, exactly the text values naming one of `ids` (other
      than the image's own) are references, and the rest is unchanged. */
  lemma {:induction false} InjectAllArgs(t: ImageTemplate, ids: seq<string>)
    ensures forall i :: 0 <= i < |t.args| ==> InjectAll(t, ids).args[i].0 == t.args[i].0
    ensures forall i :: 0 <= i < |t.args| ==>
      InjectAll(t, ids).args[i].1 ==
        (if t.args[i].1.Text? && t.args[i].1.text in ids && t.args[i].1.text != t.id
         then Ref(t.args[i].1.text) else t.args[i].1)
    decreases |ids|
  {
    if |ids| > 0 {
      var t1 := Inject(t, ids[0]);
      InjectAllArgs(t1, ids[1..]);
      assert Elems(ids) == {ids[0]} + Elems(ids[1..]) by { assert ids == [ids[0]] + ids[1..]; }
      forall i | 0 <= i < |t.args|
        ensures InjectAll(t, ids).args[i].1 ==
          (if t.args[i].1.Text? && t.args[i].1.text in ids && t.args[i].1.text != t.id
           then Ref(t.args[i].1.text) else t.args[i].1)
      {
        assert t.args[i].1.Text? && t.args[i].1.text in ids ==>
          t.args[i].1.text == ids[0] || t.args[i].1.text in ids[1..];
      }
    }
  }

  // ---------------------------------------------------------------------
  // Binding templates

  /** `GroupTemplate.bind`: a binding source named after the group, with its
      architectures (a variant is formatted only when truthy) and its
      parameters (name and value) formatted against the chain. */
  function GroupBind(g: GroupTemplate, chain: Chain): (r: Result<BindSource, Error>)
    ensures r.Success? ==> r.value.sourceName == g.id && r.value.architectures.Some?
    ensures r.Success? ==> |r.value.architectures.value| == |g.architectures| && |r.value.arguments| == |g.parameters|
    ensures r.Success? ==> forall i :: 0 <= i < |g.architectures| ==>
      BindArch(g.architectures[i], chain) == Success(r.value.architectures.value[i])
    ensures r.Success? ==> forall i :: 0 <= i < |g.parameters| ==>
      Format(g.parameters[i].0, chain) == Success(r.value.arguments[i].0) &&
      Format(g.parameters[i].1, chain) == Success(r.value.arguments[i].1)
    ensures r.Success? <==>
      (forall i :: 0 <= i < |g.architectures| ==> BindArch(g.architectures[i], chain).Success?) &&
      (forall i :: 0 <= i < |g.parameters| ==> PairBinds(g.parameters[i], chain))
    ensures r.Failure? && BindArches(g.architectures, chain).Failure? ==>
      r.error == BindArches(g.architectures, chain).error
    ensures r.Failure? && BindArches(g.architectures, chain).Success? ==>
      r.error == BindPairs(g.parameters, chain).error
  {
    var arches :- BindArches(g.architectures, chain);
    var params :- BindPairs(g.parameters, chain);
    Success(BindSource(g.id, Some(arches), params))
  }

  function BindArch(a: Arch, chain: Chain): (r: Result<Arch, Error>)
    ensures r.Success? <==> Format(a.name, chain).Success? && (Truthy(a.variant) ==> Format(a.variant.value, chain).Success?)
    ensures r.Success? ==> Format(a.name, chain) == Success(r.value.name)
    ensures r.Success? && Truthy(a.variant) ==>
      r.value.variant.Some? && Format(a.variant.value, chain) == Success(r.value.variant.value)
    ensures r.Success? && !Truthy(a.variant) ==> r.value.variant == a.variant
  {
    var name :- Format(a.name, chain);
    if Truthy(a.variant) then
      var v :- Format(a.variant.value, chain);
      Success(Arch(name, Some(v)))
    else Success(Arch(name, a.variant))
  }

  function BindArches(arches: seq<Arch>, chain: Chain): (r: Result<seq<Arch>, Error>)
    ensures r.Success? ==> |r.value| == |arches| && forall i :: 0 <= i < |arches| ==> BindArch(arches[i], chain) == Success(r.value[i])
    ensures r.Success? <==> forall i :: 0 <= i < |arches| ==> BindArch(arches[i], chain).Success?
    ensures r.Failure? ==> exists i :: (0 <= i < |arches| && BindArch(arches[i], chain) == Failure(r.error) &&
      forall j :: 0 <= j < i ==> BindArch(arches[j], chain).Success?)
  {
    if |arches| == 0 then Success([])
    else
      var a :- BindArch(arches[0], chain);
      var rest :- BindArches(arches[1..], chain);
      Success([a] + rest)
  }

  /** Both the name and the value of a pair can be formatted. */
  predicate PairBinds(p: (string, string), chain: Chain) {
    Format(p.0, chain).Success? && Format(p.1, chain).Success?
  }

  /** The error formatting a pair raises: the name's, else the value's. */
  function PairError(p: (string, string), chain: Chain): Error
    requires !PairBinds(p, chain)
  {
    if Format(p.0, chain).Failure? then Format(p.0, chain).error else Format(p.1, chain).error
  }

  function BindPairs(ps: seq<(string, string)>, chain: Chain): (r: Result<seq<(string, string)>, Error>)
    ensures r.Success? ==> |r.value| == |ps| && forall i :: 0 <= i < |ps| ==>
      Format(ps[i].0, chain) == Success(r.value[i].0) && Format(ps[i].1, chain) == Success(r.value[i].1)
    ensures r.Success? <==> forall i :: 0 <= i < |ps| ==> PairBinds(ps[i], chain)
    ensures r.Failure? ==> exists i :: (0 <= i < |ps| && !PairBinds(ps[i], chain) && r.error == PairError(ps[i], chain) &&
      forall j :: 0 <= j < i ==> PairBinds(ps[j], chain))
  {
    if |ps| == 0 then Success([])
    else
      var n :- Format(ps[0].0, chain);
      var v :- Format(ps[0].1, chain);
      var rest :- BindPairs(ps[1..], chain);
      Success([(n, v)] + rest)
  }

  /** The source `ImageTemplate.bind` appends to every image's chain. */
  const ImageDefaults: BindSource :=
    BindSource("__image_defaults__", None, [("registry", "localhost"), ("tag", "latest")])

  /** `BoundImage`: every field formatted, build-argument values that are
      references kept as references, the architectures of the chain. */
  datatype BoundImage = BoundImage(
    id: string,
    registry: string,
    name: string,
    tag: string,
    context: string,
    arches: seq<Arch>,
    args: seq<(string, ArgValue)>)

  function BindArgs(args: seq<(string, ArgValue)>, chain: Chain): (r: Result<seq<(string, ArgValue)>, Error>)
    ensures r.Success? ==> |r.value| == |args|
    ensures r.Success? ==> forall i :: 0 <= i < |args| ==> Format(args[i].0, chain) == Success(r.value[i].0)
    ensures r.Success? ==> forall i :: 0 <= i < |args| ==>
      match args[i].1
      case Text(s) => r.value[i].1.Text? && Format(s, chain) == Success(r.value[i].1.text)
      case Ref(x) => r.value[i].1 == Ref(x)
  {
    if |args| == 0 then Success([])
    else
      var n :- Format(args[0].0, chain);
      var v :- match args[0].1
        case Text(s) => var f :- Format(s, chain); Success(Text(f))
        case Ref(x) => Success(Ref(x));
      var rest :- BindArgs(args[1..], chain);
      Success([(n, v)] + rest)
  }

  /** The architectures an image is built for: those of the first link of
      the chain that has an opinion, none when no link has one. */
  function ChainArches(chain: Chain): (r: seq<Arch>)
    ensures (forall k :: 0 <= k < |chain| ==> chain[k].architectures.None?) ==> r == []
    ensures Architectures(chain).Some? ==> r == Architectures(chain).value.1
  {
    match Architectures(chain)
    case None => []
    case Some((_, arches)) => arches
  }

  /** `ImageTemplate.bind`: the chain gets the image defaults appended; the
      build arguments are formatted first, then registry, name, tag and
      context. The id is kept as it is. */
  function ImageBind(t: ImageTemplate, chain: Chain): (r: Result<BoundImage, Error>)
    ensures r.Success? ==> var c := chain + [ImageDefaults];
      r.value.id == t.id &&
      Format(t.registry, c) == Success(r.value.registry) &&
      Format(t.name, c) == Success(r.value.name) &&
      Format(t.tag, c) == Success(r.value.tag) &&
      Format(t.context, c) == Success(r.value.context) &&
      r.value.arches == ChainArches(c) &&
      BindArgs(t.args, c) == Success(r.value.args)
  {
    var c := chain + [ImageDefaults];
    var args :- BindArgs(t.args, c);
    var registry :- Format(t.registry, c);
    var name :- Format(t.name, c);
    var tag :- Format(t.tag, c);
    var context :- Format(t.context, c);
    Success(BoundImage(t.id, registry, name, tag, context, ChainArches(c), args))
  }

  /** `BoundImage.fully_qualified_name`: `registry/name:tag`, with trailing
      slashes of the registry dropped. */
  function Fqn(b: BoundImage): (r: string)
    ensures var reg := RStrip(b.registry, '/');
      |r| == |reg| + 2 + |b.name| + |b.tag| && r[..|reg|] == reg && (|reg| > 0 ==> reg[|reg| - 1] != '/') &&
      r[|reg|..] == "/" + b.name + ":" + b.tag
  {
    RStrip(b.registry, '/') + "/" + b.name + ":" + b.tag
  }

  /** A registry written with a trailing slash names the same image. */
  lemma FqnTrailingSlash(b: BoundImage)
    ensures Fqn(b.(registry := b.registry + "/")) == Fqn(b)
  {
    var s := b.registry + "/";
    assert s[..|s| - 1] == b.registry;
  }

  /** `str` of a build-argument value once resolvers are in place. */
  function ShowArg(v: ArgValue, resolvers: map<string, IdResolver>): string {
    match v
    case Text(s) => s
    case Ref(x) => if x in resolvers then Show(resolvers[x]) else x
  }

  /** `BoundImage.build_args`: every name and value as a string. */
  function BuildArgs(b: BoundImage, resolvers: map<string, IdResolver>): (r: seq<(string, string)>)
    ensures |r| == |b.args|
    ensures forall i :: 0 <= i < |b.args| ==> r[i] == (b.args[i].0, ShowArg(b.args[i].1, resolvers))
  {
    seq(|b.args|, i requires 0 <= i < |b.args| => (b.args[i].0, ShowArg(b.args[i].1, resolvers)))
  }
}
