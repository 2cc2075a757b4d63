# buildalot planning core, in Dafny

buildalot builds multi-architecture container images with `buildah`. A
YAML config lists image templates and groups whose fields carry
`${name}` placeholders. The program plans a run in five stages, and this
project models each of them as pure functions over immutable data, with
the properties each stage promises stated and proved:

1. **Templates and binding** (`config.py`).
   - Placeholders are found by `PARAM_REGEX`: module `Placeholders`.
   - Values are looked up along a chain of binding sources. The command line comes first, then the group, then the image defaults. The first source that supplies a value wins: module `Binding`.
   - Templates are parsed from YAML, and build arguments that name another image are replaced by an `IdResolver`: module `Templates`.
   - `Config` holds the dependency graph and its topological order, `parameters()` and `partial_config`: module `Configs`, with module `Graphs` for closure and ordering.
   - `Config.bind` produces a `BoundConfig` of bound images. A bound image has the fully qualified name `registry/name:tag`. The inverse "dependents" graph is built here too: module `BoundConfigs`.
2. **OCI planning** (`oci.py`): module `Oci`.
   - Every bound image becomes one image per architecture plus a manifest listing them, or a single image when it has no architecture.
   - Dependents are wired to depend on the manifest, or on the single image.
   - Modules `OciLinked` and `OciVee` hold a corrected planner and the example that separates the two.
3. **Builder commands** (`buildah.py`): module `Buildah`.
   - Every OCI node becomes `buildah bud`, `push`, `manifest create`, `manifest add` and `manifest push` work.
   - Each piece of work waits on fixed dependencies.
   - The push policy decides which images are pushed.
4. **Scheduling and retry** (`work.py`): module `Works`.
   - `execute` becomes a sequential state machine: schedule the work that waits for nothing, and on completion strip finished work from the remaining dependency lists.
   - `Retry` makes bounded attempts with a polynomial back-off.
   - `graph_to_dot` is in module `Works`, and is shared with `oci.graph_to_dot` through module `Dot`.
5. **Command line** (`cli.py`): module `Cli`.
   - `--parameter name=value` parsing and its rejection rules.
   - The check that every needed parameter is given.
   - The command-line binding source, including `--native-arch-only`.

Supporting modules:
- `Wrappers`: `Option`/`Result`.
- `Errors`: the exceptions the program raises, as values.
- `Seqs`, `Text`: sequence and string facts.
- `Dicts`: a Python `dict`, kept in insertion order.

Conventions:
- Python sets that the program iterates (`Config.graph[x]`, `dependents_of`, the OCI graph's dependency sets) are modelled as sequences in document or insertion order. Every property proved holds for that order.
- Exceptions become `Failure` values.
- `sys.exit(-1)` becomes a `Failure` that carries what the message reports.
- Python work objects compare by identity. Each piece of work here carries a serial number that stands in for its identity.

## Model

| member | source | states |
|---|---|---|
| Placeholders.MatchCharacterization | buildalot/src/buildalot/config.py:11 | the placeholder matcher accepts exactly `${`, optional `\s`, a non-empty `[a-zA-Z0-9-_]` name, optional `\s`, `}`, and reports that name and the match length (both directions) |
| Placeholders.MatchComplete | buildalot/src/buildalot/config.py:11 | placeholder text at the start of a string is always matched, whatever follows it |
| Placeholders.ScanRoundTrip | buildalot/src/buildalot/config.py:11 | the left-to-right scan `findall` performs loses nothing: its pieces spell the original string |
| Placeholders.ScanParamsArePlaceholders | buildalot/src/buildalot/config.py:11 | every piece the scan reports as a parameter is placeholder text around its name |
| Placeholders.FindAllNames | buildalot/src/buildalot/config.py:11 | every name `findall` reports is a well-formed parameter name |
| Placeholders.NoDollarNoParameters | buildalot/src/buildalot/config.py:140-150 | a string without `$` has no parameters and scans to its own characters |
| Placeholders.FindAllComplete | buildalot/src/buildalot/config.py:11 | a placeholder anywhere in a string is found: its name is among the names `findall` reports |
| Placeholders.FindAllOfPlaceholder | buildalot/src/buildalot/config.py:11 | the bare placeholder `${n}` names exactly the parameter `n` |
| Binding.LinkValue | buildalot/src/buildalot/config.py:128-132 | a link supplies no value for a name exactly when none of its arguments has that name |
| Binding.LinkValueFirst | buildalot/src/buildalot/config.py:128-132 | within one link, the first argument with the name gives the value |
| Binding.Lookup | buildalot/src/buildalot/config.py:126-132 | the chain supplies nothing exactly when no link does |
| Binding.LookupFirst | buildalot/src/buildalot/config.py:126-132 | the first link that supplies the name wins, and the value is tagged with that link's source name |
| Binding.ArgumentValue | buildalot/src/buildalot/config.py:126-134 | succeeds exactly when some link supplies the name, with the first-wins value; otherwise the error names the argument and lists every source in chain order |
| Binding.Architectures | buildalot/src/buildalot/config.py:110-124 | `None` exactly when no link has architectures |
| Binding.ArchitecturesFirst | buildalot/src/buildalot/config.py:110-124 | the first link whose architectures are not `None` decides them, tagged with its source name |
| Binding.Format | buildalot/src/buildalot/config.py:140-164 | a string without placeholders is returned unchanged; otherwise every placeholder is replaced where it stands, in one left-to-right pass over the text |
| Binding.FormatAsWritten | buildalot/src/buildalot/config.py:140-150 | as written: a string without placeholders is returned unchanged, and the first name found that no link supplies is reported with every source |
| Binding.SubNameRewritten | buildalot/src/buildalot/config.py:145-146 | when no `$` stands right before a placeholder, one `re.sub` for a name turns exactly that name's placeholders into fields `{name}` and leaves all else alone |
| Binding.SubNamesRewritten | buildalot/src/buildalot/config.py:143-146 | under the same condition, the rewrites for all names found turn exactly their placeholders into fields, repeats included |
| Binding.FillRewritten | buildalot/src/buildalot/config.py:164 | `str.format` on the text with every placeholder turned into a field gives the one-pass substitution of the original |
| Binding.FormatAgrees | buildalot/src/buildalot/config.py:140-164 | when no `$` stands right before a placeholder, the source's per-name rewriting gives exactly the one-pass substitution, failures included |
| Binding.FormatEatsDollar | buildalot/src/buildalot/config.py:143-146 | as written, `$${a}${a}` with `a` bound to `x` gives `xx`, for every name `a` and value `x`, while the one-pass substitution gives `$xx` |
| Binding.FirstMissing | buildalot/src/buildalot/config.py:140-143 | the position of the first placeholder name no link supplies: every earlier name is supplied, that one is not |
| Binding.FormatFailure | buildalot/src/buildalot/config.py:126-150 | formatting fails exactly when some placeholder has no value, and then reports the first such placeholder and every source |
| Binding.RenderAppend | buildalot/src/buildalot/config.py:156-164 | substitution distributes over concatenation: each placeholder is replaced where it stands |
| Binding.FormatPlaceholder | buildalot/src/buildalot/config.py:140-164 | a placeholder is replaced by the string of its bound value verbatim |
| Binding.FormatIsSinglePass | buildalot/src/buildalot/config.py:140-164 | substituted values are not expanded again: `${a}` with `a` bound to `${b}` formats to `${b}` |
| Text.SortedDistinct | buildalot/src/buildalot/config.py:241-245 | `sorted(set(xs))`: strictly ascending, with exactly the elements of `xs` |
| Text.StrLessTotal | buildalot/src/buildalot/config.py:245 | the string order `sorted` uses is total on distinct strings |
| Text.StrLessTransitive | buildalot/src/buildalot/config.py:245 | and transitive |
| Text.RStrip | buildalot/src/buildalot/config.py:562 | `rstrip(c)` removes exactly the trailing run of `c`: the result is a prefix, the removed part is all `c`, and the result does not end in `c` |
| Text.EscapeRoundTrip | buildalot/src/buildalot/work.py:115-116 | escaping `"` as `\"` loses nothing: unescaping gives back the original text |
| Text.EscapeQuotesGuarded | buildalot/src/buildalot/work.py:115-116 | every quote in escaped text is preceded by a backslash |
| Text.SplitJoin | buildalot/src/buildalot/oci.py:41 | lines joined with `"\n"`, none containing it, split back into the same lines |
| Text.ReadShowNat | buildalot/src/buildalot/work.py:177 | the decimal text of a number reads back as that number |
| Seqs.RemoveFirst | buildalot/src/buildalot/work.py:62-64 | `list.remove`: without an occurrence nothing changes; otherwise exactly the first occurrence goes |
| Seqs.Reverse | buildalot/src/buildalot/config.py:292 | `reversed`: position `i` holds element `len-1-i` |
| Seqs.ReverseElems | buildalot/src/buildalot/config.py:292 | reversing keeps the elements and keeps them distinct |
| Dicts.Put | buildalot/src/buildalot/buildah.py:100-116 | `d[k] = v`: `k` maps to `v`, a new key goes last, an existing key keeps its place, no other entry changes |
| Dicts.Remove | buildalot/src/buildalot/work.py:100 | `del d[k]`: the key goes; the others keep their values, and the key order is the old one with `k` cut out where it stood |
| Dicts.RemoveAllEach | buildalot/src/buildalot/work.py:98-100 | removing the scheduled keys at once is the same as the loop that deletes them one by one, in any order |
| Templates.Resolve | buildalot/src/buildalot/config.py:30-33 | a resolver resolves exactly when it is not yet resolved; resolving it again fails and names its identifier |
| Templates.ResolveOnce | buildalot/src/buildalot/config.py:30-39 | a fresh resolver shows its identifier, a resolved one shows its resolved name, and a second resolve raises |
| Templates.ParamsAreNames | buildalot/src/buildalot/config.py:361-363 | every parameter of a template is a well-formed name |
| Templates.ArgParams | buildalot/src/buildalot/config.py:403-405 | the parameters of the build arguments are exactly the placeholders of their names and values |
| Templates.PairParams | buildalot/src/buildalot/config.py:697-699 | the parameters of a group's parameters are exactly the placeholders of their names and values |
| Templates.FieldText | buildalot/src/buildalot/config.py:376-381 | a missing or null field takes its default, text is kept, and any other value fails |
| Templates.ArgValues | buildalot/src/buildalot/config.py:519-522 | build arguments are accepted exactly when every value is text, and keep their order |
| Templates.ParseImage | buildalot/src/buildalot/config.py:486-527 | the checks in the source's order: an unknown top-level field gives a returned `ParseError`; a missing `build` raises `KeyError`, a `build` that is not a mapping `AttributeError`; an unknown `build` field is returned; a missing or null `context` raises `MissingContext`; nothing else but `TypeError` is raised. It parses exactly when every field has the right shape, and then the template has the id, the fields with their defaults, the context and the build arguments of the document |
| Templates.MinimumImage | buildalot/src/buildalot/config.py:378-383 | an image with only `build: context:` gets the name `${name}`, registry `${registry}` and tag `${tag}` |
| Templates.MinimumImageParams | buildalot/src/buildalot/config.py:378-400 | its parameters are `name`, `registry` and `tag` |
| Templates.ArchEntries | buildalot/src/buildalot/config.py:738-748 | a string architecture becomes `(arch, null)`, a two-element list becomes its pair and a two-entry mapping the pair of its keys; it succeeds exactly when every entry is one of these |
| Templates.ArchOf | buildalot/src/buildalot/config.py:676-686 | an architecture pair is accepted when the architecture is text and the variant is text or null, and null means no variant |
| Templates.ParseGroup | buildalot/src/buildalot/config.py:717-760 | an unknown field gives a returned `ParseError`; a missing or non-list `images`, a non-list `architectures` and a non-mapping `parameters` raise their `ParseError`s in that order; only the source's errors are raised; a parsed group keeps its id, has at least one image, listed as written, and the architectures and parameters the document gives, read in order |
| Templates.GroupArchitectures | buildalot/src/buildalot/config.py:738-748 | on the documented example, `amd64` has no variant and `[arm64, v8]` has one |
| Templates.GroupArchitectureTooLong | buildalot/src/buildalot/config.py:743-746 | a three-element architecture entry raises `ParseError` |
| Templates.UsesId | buildalot/src/buildalot/config.py:408-416 | an image uses another id exactly when some build-argument value is that id; a group uses it when its images list it or a parameter value equals it; nothing uses its own id |
| Templates.InjectArgs | buildalot/src/buildalot/config.py:418-433 | exactly the values equal to the resolver's identifier become that resolver; names, order and the rest are kept |
| Templates.InjectAllArgs | buildalot/src/buildalot/config.py:418-433 | after injecting several resolvers, exactly the values naming one of them (other than the image's own id) are references |
| Templates.InjectKeepsText | buildalot/src/buildalot/config.py:397-433 | injection changes neither the parameters nor the ids a template uses |
| Templates.GroupBind | buildalot/src/buildalot/config.py:762-779 | a group binds to a source named after it, which always has architectures: each group architecture bound against the chain and each parameter name and value formatted, in order; it fails exactly when one of them cannot be formatted, with the error of the first that fails |
| Templates.BindArch | buildalot/src/buildalot/config.py:764-768 | the architecture is formatted; a truthy variant is formatted; a falsy one is kept as it is |
| Templates.BindArgs | buildalot/src/buildalot/config.py:446-455 | every argument name is formatted, text values are formatted and resolvers are kept, in order |
| Templates.ChainArches | buildalot/src/buildalot/config.py:110-124 | an image's architectures are those of the first link with an opinion, and empty when no link has one |
| Templates.ImageBind | buildalot/src/buildalot/config.py:435-469 | every field is formatted against the chain followed by the image defaults `registry=localhost`, `tag=latest`; the id is kept |
| Templates.Fqn | buildalot/src/buildalot/config.py:561-565 | `registry/name:tag`, with the registry's trailing slashes removed |
| Templates.FqnTrailingSlash | buildalot/src/buildalot/config.py:561-565 | a registry written with a trailing slash names the same image |
| Graphs.Reach | buildalot/src/buildalot/config.py:252-258 | the transitive dependencies of a set contain it and are closed under dependencies |
| Graphs.ReachLeast | buildalot/src/buildalot/config.py:252-258 | and lie inside every dependency-closed set that contains it, so they are exactly what is needed |
| Graphs.TopoSort | buildalot/src/buildalot/config.py:206-207 | on success the order lists every node once, after its dependencies; on failure the error is `CycleError` and the nodes left over are stuck |
| Graphs.TopoSortComplete | buildalot/src/buildalot/config.py:206-207 | the sort succeeds exactly when the graph has a topological order |
| Graphs.RestrictOrder | buildalot/src/buildalot/config.py:260-275 | restricting a graph to a dependency-closed set keeps its order, filtered |
| Configs.DepGraphEdges | buildalot/src/buildalot/config.py:188-196 | `x` depends on `y` exactly when `y` is another template and an image argument value equals `y`, or a group lists `y` or has a parameter value equal to `y` |
| Configs.DepGraphClosed | buildalot/src/buildalot/config.py:188-196 | every dependency is a template of the config |
| Configs.MakeConfig | buildalot/src/buildalot/config.py:182-207 | on success the graph is the dependency graph and the build order is a topological order of it; the only failures are a `KeyError` for a group used by an image, and `CycleError` |
| Configs.MakeConfigCases | buildalot/src/buildalot/config.py:182-207 | construction succeeds exactly when every dependency of an image is an image and the graph has an order; it otherwise names the failure |
| Configs.MakeConfigValid | buildalot/src/buildalot/config.py:182-207 | a constructed config satisfies the config invariant |
| Configs.MakeConfigInjects | buildalot/src/buildalot/config.py:198-204 | after construction exactly the build-argument values naming a dependency of their image are references to it |
| Configs.InjectTemplatesKeeps | buildalot/src/buildalot/config.py:198-204 | injection keeps the ids, the image ids and the dependency graph |
| Configs.KeepTemplatesGraph | buildalot/src/buildalot/config.py:260-275 | keeping some templates cuts the graph down to them |
| Configs.KeepTemplatesValid | buildalot/src/buildalot/config.py:260-275 | rebuilding from a dependency-closed subset succeeds and gives a valid config |
| Configs.PartialConfig | buildalot/src/buildalot/config.py:260-275 | fails exactly when a wanted id is not in the config, naming the first one; otherwise gives a valid config |
| Configs.PartialConfigContents | buildalot/src/buildalot/config.py:252-275 | the partial config holds exactly the wanted ids and their transitive dependencies, with the graph cut down to them |
| Configs.AllParams | buildalot/src/buildalot/config.py:241-244 | a name is collected exactly when it is a parameter of some template |
| Configs.Parameters | buildalot/src/buildalot/config.py:241-245 | `parameters()` is strictly sorted and holds exactly the parameters of all templates |
| Configs.ParametersAreNames | buildalot/src/buildalot/config.py:241-245 | every parameter is a well-formed name, and none is listed twice |
| Configs.ParseItem | buildalot/src/buildalot/config.py:222-233 | a non-mapping raises `ParseError`; a mapping with `build` is an image, one with `images` a group, anything else raises `ParseError` |
| Configs.ParseItems | buildalot/src/buildalot/config.py:221-234 | parsing succeeds exactly when every item does, and keeps the document order; on failure the error is that of the first item that raises |
| Configs.ParseConfig | buildalot/src/buildalot/config.py:190-235 | a document that is not a mapping fails; on success the templates are the top-level keys in document order |
| Configs.ParseConfigCases | buildalot/src/buildalot/config.py:216-235 | on a mapping, the first item that raises passes its error on; an item that returned its `ParseError` makes the constructor raise `AttributeError` on `.id`; otherwise the result is `Config` of the parsed templates; so parsing succeeds exactly when every item parses to a template and that config is built |
| Configs.ParseConfigValid | buildalot/src/buildalot/config.py:182-235 | every parsed config satisfies the config invariant |
| Configs.ParseConfigImages | buildalot/src/buildalot/config.py:184-230 | the images of a parsed config are exactly the items with a `build` section |
| BoundConfigs.GroupsOf | buildalot/src/buildalot/config.py:185 | the groups are exactly the group templates |
| BoundConfigs.BindChainOf | buildalot/src/buildalot/config.py:277-287 | more than one group raises `NotImplementedError`; otherwise the chain is the command line, then the bound group if there is one |
| BoundConfigs.ChainPrecedence | buildalot/src/buildalot/config.py:126-134 | a value comes from the command line if it has one, else from the group, else from the image defaults `registry=localhost`, `tag=latest` |
| BoundConfigs.ChainArchPrecedence | buildalot/src/buildalot/config.py:110-124 | the architectures are the command line's when it has an opinion, else the group's, else none |
| BoundConfigs.BoundIds | buildalot/src/buildalot/config.py:291-294 | every image id of the config exactly once |
| BoundConfigs.BindImages | buildalot/src/buildalot/config.py:291-294 | binding succeeds exactly when every image binds, each against the same chain, in order |
| BoundConfigs.ResolveAll | buildalot/src/buildalot/config.py:296-298 | succeeds exactly when every bound image has a fresh resolver, and resolves each to its image's fully qualified name, leaving the others alone |
| BoundConfigs.BoundOrder | buildalot/src/buildalot/config.py:311-316 | the bound config's build order is a topological order of the image graph |
| BoundConfigs.Bind | buildalot/src/buildalot/config.py:277-307 | one bound image per image id, each id once; the dependency graph is the image graph, with a topological order; every image's resolver is resolved to that image's fully qualified name |
| BoundConfigs.BindParts | buildalot/src/buildalot/config.py:277-307 | a successful bind is made of the chain, the bound images and the resolution |
| BoundConfigs.BindFresh | buildalot/src/buildalot/config.py:277-307 | on a fresh config, bind succeeds as soon as the chain and every image bind |
| BoundConfigs.BindResolves | buildalot/src/buildalot/config.py:296-298 | after bind every resolver is resolved, and the config stays valid |
| BoundConfigs.BindTwice | buildalot/src/buildalot/config.py:30-33 | binding a config a second time raises `cannot resolve id twice` for the first image bound |
| BoundConfigs.BindRefFqn | buildalot/src/buildalot/config.py:35-39 | a build argument turned into a resolver renders, after bind, as the fully qualified name of the image it named |
| BoundConfigs.DependenciesOf | buildalot/src/buildalot/config.py:334-335 | an image's dependencies, and a `KeyError` for an id that is not an image |
| BoundConfigs.DependentsIn | buildalot/src/buildalot/config.py:318-328 | the inverse graph: the other ids that depend on `x` |
| BoundConfigs.DependentsOf | buildalot/src/buildalot/config.py:318-338 | `dependents_of` gives a `KeyError` exactly for an id that is not an image |
| BoundConfigs.DependentsConverse | buildalot/src/buildalot/config.py:318-338 | `y` is a dependent of `x` exactly when `y` is not `x` and `x` is among the dependencies of `y` |
| BoundConfigs.GetImage | buildalot/src/buildalot/config.py:340-343 | the bound image with the id, and nothing when there is none |
| Dot.LinesShape | buildalot/src/buildalot/oci.py:31-41 | the output is a header, a line per node, the edge lines, and a closing brace |
| Dot.LinesNodes | buildalot/src/buildalot/oci.py:33-34 | node `i` in insertion order is declared on line `1+i` |
| Dot.LinesEdges | buildalot/src/buildalot/oci.py:35-39 | the lines before the brace are exactly the edge lines |
| Dot.EdgeLines | buildalot/src/buildalot/oci.py:35-39 | every edge has its line |
| Dot.EdgeLineSource | buildalot/src/buildalot/oci.py:35-39 | every edge line comes from an edge |
| Dot.RenderSplits | buildalot/src/buildalot/oci.py:41 | when no label holds a line break, splitting the output at line breaks gives back the lines |
| Oci.Suffix | buildalot/src/buildalot/oci.py:84-87 | the temporary tag is `-arch-variant`, or `-arch` when the variant is falsy |
| Oci.Expand | buildalot/src/buildalot/oci.py:79-114 | with architectures: one image per architecture, named FQN plus suffix, carrying that arch and variant, and a manifest named FQN listing them in order; without: one image named FQN with no arch or variant and no manifest; every image carries the context and build arguments |
| Oci.ExpandNames | buildalot/src/buildalot/oci.py:98-127 | what dependents are made to depend on is the manifest named FQN, or the single image named FQN |
| Oci.ExpansionFresh | buildalot/src/buildalot/oci.py:69-114 | nodes created for an image whose name is not yet planned are new to the graph |
| Oci.AddNodes | buildalot/src/buildalot/oci.py:88-114 | the images are added with no dependencies and the manifest depends on exactly them; existing nodes are untouched |
| Oci.AddTo | buildalot/src/buildalot/oci.py:124-127 | `oci_graph[d].add(t)` for each target: `d` gains exactly the targets and nothing else changes |
| Oci.AddEdges | buildalot/src/buildalot/oci.py:116-127 | every created node of a dependent gains every target; no edge is removed and no other node changes |
| Oci.Extend | buildalot/src/buildalot/oci.py:66-129 | an image whose name is already planned adds nothing and returns nothing; otherwise it returns its new images; the graph only grows and the image's name is then planned |
| Oci.ExtendDependents | buildalot/src/buildalot/oci.py:116-127 | the loop over the dependents keeps the graph planned and only grows it |
| Oci.ExtendAll | buildalot/src/buildalot/oci.py:59-61 | after the loop, every image in it has its name planned |
| Oci.BuildGraph | buildalot/src/buildalot/oci.py:44-63 | every bound image in build order has its fully qualified name as the name of some node, and the graph is well formed |
| Oci.GraphToDotLines | buildalot/src/buildalot/oci.py:31-41 | the dot text reads back as the header, one quoted line per node in order, a line for every edge, and the closing brace |
| OciLinked.PlanAll | buildalot/src/buildalot/oci.py:59-114 | the corrected planner's first pass plans the name of every image |
| OciLinked.PlanAllComplete | buildalot/src/buildalot/oci.py:59-114 | when no two images share a node name, every node of every image is planned |
| OciLinked.LinkAll | buildalot/src/buildalot/oci.py:116-127 | the second pass links each image to every one of its dependencies whose nodes are planned |
| OciLinked.BuildGraphNodes | buildalot/src/buildalot/oci.py:44-63 | when the build order lists every image and no two images share a node name, the as-written planner holds every node of every image: one image per architecture and the manifest, or the single image |
| OciLinked.BuildGraphLinked | buildalot/src/buildalot/oci.py:44-63 | the corrected planner plans every image's name and links every dependency |
| OciLinked.BuildGraphLinkedComplete | buildalot/src/buildalot/oci.py:44-63 | when images do not share names, every node is planned and every dependency edge is present |
| OciLinked.BuildGraphLinkedEdges | buildalot/src/buildalot/oci.py:69-127 | the corrected planner adds no other edges: each is an architecture image under its manifest, or a dependent's node on a node of something it uses |
| OciLinked.BuildGraphLinkedManifests | buildalot/src/buildalot/oci.py:44-63 | when images do not share names, every manifest depends on each of its per-architecture images |
| OciLinked.BuildGraphLinkedExact | buildalot/src/buildalot/oci.py:44-127 | when images do not share names, the edges are exactly the manifest edges and the dependency edges (both directions) |
| OciVee.VeeLosesEdge | buildalot/src/buildalot/oci.py:69-127 | image `c` depends on `a` and `b`, yet in the planned graph `c`'s node depends on no node named after `b` |
| OciVee.VeeLinked | buildalot/src/buildalot/oci.py:116-127 | the corrected planner makes `c`'s node depend on both `a` and `b` |
| Buildah.BuildArgs | buildalot/src/buildalot/buildah.py:15-17 | `--build-arg name=value` for each argument, in order |
| Buildah.BudRoundTrip | buildalot/src/buildalot/buildah.py:7-24 | the build command reads back as its tag, its arguments in order, its arch when set, and its variant only when arch is also set |
| Buildah.PushesExactly | buildalot/src/buildalot/buildah.py:7-68 | of the five commands, exactly image push and manifest push push to a registry |
| Buildah.NotPushed | buildalot/src/buildalot/buildah.py:72-78 | with push on, exactly the images some manifest lists are not pushed by themselves; with push off the set is empty |
| Buildah.ImageEntries | buildalot/src/buildalot/buildah.py:94-105 | an image gives its build waiting on the prerequisites, then, when pushed, its push waiting on the build alone |
| Buildah.ManifestEntries | buildalot/src/buildalot/buildah.py:106-124 | a manifest gives create waiting on the prerequisites, one add per listed image in order waiting on create, and with push a push waiting on all the adds |
| Buildah.Downstream | buildalot/src/buildalot/buildah.py:104-124 | what dependents wait for is work made for the node, listed once each |
| Buildah.PrereqsGood | buildalot/src/buildalot/buildah.py:88-92 | the prerequisite work is already in the work graph and names no work twice |
| Buildah.StepGood | buildalot/src/buildalot/buildah.py:87-128 | handling one node keeps the work graph well numbered: every work waits only for earlier work in the graph, and each handed-over work is in the graph |
| Buildah.PlantGood | buildalot/src/buildalot/buildah.py:87-128 | the whole loop keeps that invariant |
| Buildah.PlantMade | buildalot/src/buildalot/buildah.py:87-128 | the loop handles every node of the order and writes its work |
| Buildah.BuildPlanFails | buildalot/src/buildalot/buildah.py:80-81 | `build_graph` fails, with `CycleError`, exactly when the OCI graph has no topological order |
| Buildah.BuildPlanMade | buildalot/src/buildalot/buildah.py:71-130 | every OCI node gets its work |
| Buildah.BuildGraph | buildalot/src/buildalot/buildah.py:71-130 | fails exactly on a cycle; otherwise the work graph can be run: every dependency is in it, made earlier, and listed once |
| Buildah.ImageWork | buildalot/src/buildalot/buildah.py:72-105 | an image is built after its prerequisites; with push on it is pushed exactly when no manifest lists it, the push waiting on its build alone; dependents wait on its last work |
| Buildah.ManifestWork | buildalot/src/buildalot/buildah.py:106-124 | a manifest gets create waiting on its prerequisites and one add per listed image waiting on create; with push, a push waiting on all the adds that dependents wait on; without, dependents wait on all the adds |
| Buildah.MadeNoPush | buildalot/src/buildalot/buildah.py:73-110 | without push, no work made for a node pushes |
| Buildah.NoPushUnlessAsked | buildalot/src/buildalot/buildah.py:71-130 | without push, no work in the whole graph pushes |
| Works.ShowRetrying | buildalot/src/buildalot/work.py:176-177 | the text of a retried work reads back as `Retry(attempts=N): ` followed by the text of the work |
| Works.DefaultWaits | buildalot/src/buildalot/work.py:159-189 | with the defaults the back-offs are 5, 20, 65 and 140 seconds |
| Works.FirstSettled | buildalot/src/buildalot/work.py:180-186 | the first attempt that does not raise a retried exception: all earlier ones did |
| Works.RunRetry | buildalot/src/buildalot/work.py:179-197 | the loop makes at most `attempts` attempts, stops at the first success or unlisted exception and ends as it did, re-raises after the last, and sleeps between attempts only |
| Works.Ready | buildalot/src/buildalot/work.py:76-77 | exactly the work whose dependency list is empty, in graph order |
| Works.Schedule | buildalot/src/buildalot/work.py:68-100 | the ready work is submitted in graph order and removed from the graph, and the rest is kept unchanged; once shut down nothing changes |
| Works.Retire | buildalot/src/buildalot/work.py:48-66 | finishing `w` removes it from every dependency list and nothing else changes; a failure shuts down and sets `all_done`; an empty graph sets `all_done` only |
| Works.Start | buildalot/src/buildalot/work.py:108-109 | the run starts neither done nor shut down |
| Works.EmptyGraphHangs | buildalot/src/buildalot/work.py:65-109 | with an empty graph nothing is submitted and `all_done` is not set, so `execute` waits forever |
| Works.ScheduleDepsFirst | buildalot/src/buildalot/work.py:76-100 | work is submitted only after everything it depends on |
| Works.CompleteInv | buildalot/src/buildalot/work.py:48-100 | a completion keeps the run's invariant |
| Works.StartInv | buildalot/src/buildalot/work.py:108 | the run starts in that invariant |
| Works.StartOutcomes | buildalot/src/buildalot/work.py:108 | at the start nothing has finished and nothing depending on other work is submitted |
| Works.CompleteOutcomes | buildalot/src/buildalot/work.py:48-100 | after each callback the executor is shut down exactly when a finished job failed, and work is submitted only once all it depends on succeeded: `shutdown_on_error` runs before `queue_next_work`, whose submission then raises |
| Works.Progress | buildalot/src/buildalot/work.py:48-109 | until `all_done` is set some work is running, so the wait is not in vain |
| Works.CompleteShrinks | buildalot/src/buildalot/work.py:57-100 | every completion brings the run closer to its end |
| Works.StartCheckedAgrees | buildalot/src/buildalot/work.py:108-109 | the start `Execute` uses is the start as written except on the empty graph, where it is already done |
| Works.Execute | buildalot/src/buildalot/work.py:38-110 | the run ends with nothing running; no work is submitted twice or before its dependencies; the executor ends shut down exactly when a submitted job failed, and no work is submitted unless every piece of work it depends on succeeded; when nothing fails every work is submitted |
| Works.DryRunShowsAsWritten | buildalot/src/buildalot/work.py:79-100 | in a dry run, the print jobs of one round all show the last work scheduled |
| Works.DryRunRepeats | buildalot/src/buildalot/work.py:79-100 | two pieces of work ready together both print the second |
| Works.DryRunShows | buildalot/src/buildalot/work.py:76-80 | when each job keeps its own work, the print jobs of a round show exactly the work that round submits, in order |
| Works.DryRunAgrees | buildalot/src/buildalot/work.py:79-100 | the jobs as written print what they were made for exactly when at most one piece of work is ready |
| Works.GraphToDotNodes | buildalot/src/buildalot/work.py:113-125 | the dot text starts with the header, declares each work in order with its text escaped so that it unescapes back, and ends with the brace |
| Works.GraphToDotEdges | buildalot/src/buildalot/work.py:121-123 | the dot text has a line for every edge |
| Cli.MatchParameter | buildalot/src/buildalot/cli.py:43-50 | a match is a name of `[a-zA-Z0-9-_]` characters, `=`, and a value without a line break, with at most one final line break after it |
| Cli.MatchParameterComplete | buildalot/src/buildalot/cli.py:43-50 | every text of that shape is matched, with its name and value |
| Cli.MatchParameterIff | buildalot/src/buildalot/cli.py:43-50 | a text is accepted with a given name and value exactly when it has that shape |
| Cli.ParseCliParameters | buildalot/src/buildalot/cli.py:40-58 | succeeds exactly when every text matches and names a needed parameter; the pairs come in command-line order with repeats kept |
| Cli.ParseCliParametersRefusal | buildalot/src/buildalot/cli.py:44-55 | a refusal reports the first text refused: a malformed text, or an unneeded name with its value |
| Cli.ParsedValueFirst | buildalot/src/buildalot/cli.py:56-58 | the first `--parameter` given for a name is the value its link supplies |
| Cli.InvalidFormatMessageIgnoresInput | buildalot/src/buildalot/cli.py:47 | the texts `=x` and `a` are both refused, and the message as written is the same for both, whereas the intended one tells them apart |
| Cli.InvalidFormatMessageShowsInput | buildalot/src/buildalot/cli.py:47 | the intended message holds the refused text, which can be read back out of it |
| Cli.MissingAsWrittenAll | buildalot/src/buildalot/cli.py:61-66 | as written, every needed parameter is reported missing |
| Cli.CheckHaveAllAsWrittenRefusesGiven | buildalot/src/buildalot/cli.py:61-68 | as written, the check fails even when the one needed parameter is given; comparing names, it passes |
| Cli.Missing | buildalot/src/buildalot/cli.py:61-66 | exactly the needed parameters that are not given, in the order needed |
| Cli.CheckHaveAll | buildalot/src/buildalot/cli.py:61-68 | the check passes exactly when every needed parameter is given; otherwise it reports exactly the missing ones |
| Cli.ParsedPassCheck | buildalot/src/buildalot/cli.py:40-68 | what the command line gives passes the check exactly when it names every needed parameter |
| Cli.NativeArchOnly | buildalot/src/buildalot/cli.py:89-93 | with `--native-arch-only` every image gets no architecture, whatever the group asks for |
| Cli.GroupArches | buildalot/src/buildalot/cli.py:89-93 | without it, an image gets the group's architectures, or none without a group |
| Cli.CommandLineWins | buildalot/src/buildalot/cli.py:89-93 | a parameter given on the command line is bound to its first value there, ahead of the group and the image defaults |

## Left out

- YAML loading (`yaml.safe_load`) is not modelled; the input is a parsed document given as a datatype. The `yaml.dump`-based `__str__`/`__repr__` methods are left out too.
- Python set iteration order is not modelled. `Config.graph` values, `dependents_of` results and the OCI graph's dependency sets are sequences in document or insertion order.
- BoundConfigs.BoundIds: states that every image id appears once. It does not state that the order is the reverse of the build order, although the definition builds it that way.
- Graphs.TopoSort: is one particular topological order (Kahn's algorithm in rounds), not `graphlib`'s exact output. Everything downstream assumes only "some topological order".
- Configs.ParseConfig: requires the keys of the top-level mapping to be distinct, as the YAML loader guarantees.
- Configs.MakeConfig: the `KeyError` for an image that uses a group names the first such group in document order. Python's set order may pick another.
- `Path` normalisation of build contexts, and `Path.cwd()` for a command with no working directory: the directory is kept as text, and absent means "the current one".
- `str.format` edge cases: templates are assumed to hold no braces other than those of `${…}` placeholders. Doubled braces `{{`/`}}` and a `{` or `}` that is not part of a placeholder are not modelled.
- Binding.Format: models the one-pass substitution the source evidently intends, not the source's rewriting. The source runs one `re.sub` per name `findall` reports (config.py:143-146). A literal `$` right before a placeholder whose name occurs again is taken by a later rewrite (see Findings). Binding.FormatAsWritten models the source as written, and Binding.FormatAgrees shows the two agree whenever no `$` stands right before a placeholder.
- Binding.Format: a placeholder whose name is all digits, such as `${1}`, is substituted. The source turns it into the positional field `{1}` of `str.format` (config.py:146 and 164), which raises `IndexError`.
- Binding.FormatFailure: states that formatting fails only for a placeholder without a value; it does not cover the `IndexError` of an all-digit name.
- Binding.FormatPlaceholder: holds for every name, all-digit names included, where the source raises `IndexError`.
- Templates.ArchOf: a variant that is falsy but not a string (`false`, `0`, an empty list or mapping) is refused with `TypeError`. The source keeps such a variant (config.py:695 and 767) and later shows it with `str`, e.g. `False`. The parsed document has no values for non-string scalars, so their truthiness is not modelled.
- The partial resolver mutation of `inject_resolver` on shared template objects (objects shared between configs) is not modelled; templates are values.
- Works.Execute: starts from the corrected start (`StartChecked`), which differs from the start as written only on the empty graph (see Findings); it models `execute` sequentially. Jobs finish in the order they were submitted, and each job's outcome is a parameter. Threads, the lock, the `Event`, executor cancellation and `max_workers` are left out: a job still queued when the executor shuts down is treated as finishing with its outcome rather than being cancelled.
- The `RuntimeError` branch of `queue_next_work` after shutdown is modelled as "nothing changes".
- `ExecuteCommand.__call__` (subprocess I/O), `time.sleep` and the stderr logging in `Retry` are left out. `Retry`'s outcomes per attempt are a parameter.
- `shlex.join` is a parameter (`join`) of the work text.
- `cohesive_output.py` is not part of this model: it only serialises output across threads.
- Buildah.BuildGraph: requires every dependency of the OCI graph to be a node of it, as `oci.build_graph` guarantees. It does not model the `assert` or `KeyError` otherwise.
- The `RuntimeError` of `buildah.build_graph` for a node that is neither an image nor a manifest cannot arise: nodes are one of the two by construction.
- Oci.GraphToDotLines: is stated for names without line breaks, so that the output can be read back line by line.
- `argparse`, file opening, debug printing and the glue of `main` are left out. The stages it chains are each modelled.
- `check_have_all_parameters` is modelled, but `main` never calls it.
- Architecture exclusions (`Exclusion`, `architectures_for_image`) are not part of this model, because the core does not implement them.

## Findings

| source | as written | input that shows it | evidently intended | confidence | as-written member | corrected member |
|---|---|---|---|---|---|---|
| buildalot/src/buildalot/oci.py:69-127 | a dependent is linked only by the call that creates it; a later call for another dependency returns early, before adding the edge | images `a`, `b`, `c`, where `c` uses both `a` and `b`, in build order `a`, `b`, `c` | every dependent depends on the nodes of all its dependencies | not executed | OciVee.VeeLosesEdge | OciLinked.BuildGraphLinkedComplete |
| buildalot/src/buildalot/cli.py:61-68 | `parameter not in have_parameters` compares a name with `(name, value)` pairs, so it is always true | need `["arch"]`, have `[("arch", "amd64")]`: reported missing | compare with the names given | not executed | Cli.CheckHaveAllAsWrittenRefusesGiven | Cli.CheckHaveAll |
| buildalot/src/buildalot/work.py:65-109 | `all_done` is set only from a job's callback, so with nothing to run it is never set | `execute({})` | return at once when the graph is empty | not executed | Works.EmptyGraphHangs | Works.Execute |
| buildalot/src/buildalot/work.py:79-100 | the dry-run lambda reads the loop variable `work` when it runs, not when it is made | two pieces of work `a` and `b`, both ready; their print jobs run after scheduling | each job prints its own work | not executed | Works.DryRunRepeats | Works.DryRunShows |
| buildalot/src/buildalot/cli.py:47 | the message lacks the `f` prefix, so `{parametervalue}` is printed literally | `--parameter =x` and `--parameter a` give the same message | show the text refused | not executed | Cli.InvalidFormatMessageIgnoresInput | Cli.InvalidFormatMessageShowsInput |
| buildalot/src/buildalot/config.py:143-146 | one `re.sub` per name found, repeats included; after the first rewrite of `a`, a literal `$` before the field `{a}` it left forms `${a}` again, and the next rewrite takes the `$` | `$${a}${a}` with `a` bound to `X` gives `XX` | `$XX`: only placeholders are replaced | not executed | Binding.FormatEatsDollar | Binding.FormatAgrees |
