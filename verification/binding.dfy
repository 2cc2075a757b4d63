/** Binding template parameters to values (config.py `BoundValue`,
    `BindSource`, `BindChain`, `BoundFormatString`).

    A bind chain is a list of sources searched front to back; the first source
    that supplies a value wins. */
module Binding {
  import opened Wrappers
  import opened Errors
  import opened Placeholders
  import opened Seqs

  /** An (architecture, variant) pair; the variant may be absent (`None`). */
  datatype Arch = Arch(name: string, variant: Option<string>)

  /** One link of a chain: its name, the architectures it asks for (`None`
      when it has no opinion) and its `(name, value)` arguments in order. */
  datatype BindSource = BindSource(
    sourceName: string,
    architectures: Option<seq<Arch>>,
    arguments: seq<(string, string)>)

  type Chain = seq<BindSource>

  /** A value together with the name of the source that supplied it. */
  datatype BoundValue = BoundValue(source: string, value: string)

  /** The value a link gives `name`: its first argument with that name. */
  function LinkValue(args: seq<(string, string)>, name: string): (r: Option<string>)
    ensures r.None? <==> forall i :: 0 <= i < |args| ==> args[i].0 != name
  {
    if |args| == 0 then None
    else if args[0].0 == name then Some(args[0].1)
    else LinkValue(args[1..], name)
  }

  /** `LinkValue` returns the value of the first argument called `name`. */
  lemma {:induction false} LinkValueFirst(args: seq<(string, string)>, name: string, i: nat)
    requires i < |args| && args[i].0 == name
    requires forall j :: 0 <= j < i ==> args[j].0 != name
    ensures LinkValue(args, name) == Some(args[i].1)
  {
    if i > 0 {
      assert forall j :: 0 <= j < i - 1 ==> args[1..][j] == args[j + 1];
      LinkValueFirst(args[1..], name, i - 1);
    }
  }

  /** The first link of the chain that supplies `name`, and what it supplies. */
  function Lookup(chain: Chain, name: string): (r: Option<BoundValue>)
    ensures r.None? <==> forall k :: 0 <= k < |chain| ==> LinkValue(chain[k].arguments, name).None?
  {
    if |chain| == 0 then None
    else match LinkValue(chain[0].arguments, name)
      case Some(v) => Some(BoundValue(chain[0].sourceName, v))
      case None =>
        assert forall k :: 1 <= k < |chain| ==> chain[k] == chain[1..][k - 1];
        Lookup(chain[1..], name)
  }

  /** `Lookup` answers with the first link that supplies `name`. */
  lemma {:induction false} LookupFirst(chain: Chain, name: string, k: nat)
    requires k < |chain| && LinkValue(chain[k].arguments, name).Some?
    requires forall j :: 0 <= j < k ==> LinkValue(chain[j].arguments, name).None?
    ensures Lookup(chain, name) == Some(BoundValue(chain[k].sourceName, LinkValue(chain[k].arguments, name).value))
  {
    if k > 0 {
      assert forall j :: 0 <= j < k - 1 ==> chain[1..][j] == chain[j + 1];
      LookupFirst(chain[1..], name, k - 1);
    }
  }

  function SourceNames(chain: Chain): (r: seq<string>)
    ensures |r| == |chain| && forall k :: 0 <= k < |chain| ==> r[k] == chain[k].sourceName
  {
    if |chain| == 0 then [] else [chain[0].sourceName] + SourceNames(chain[1..])
  }

  /** `BindChain.argument_value`: the first link supplying `name` wins; when
      no link does, the error names the argument and lists every source. */
  function ArgumentValue(chain: Chain, name: string): (r: Result<BoundValue, Error>)
    ensures r.Success? <==> exists k :: 0 <= k < |chain| && LinkValue(chain[k].arguments, name).Some?
    ensures r.Success? ==> Some(r.value) == Lookup(chain, name)
    ensures r.Failure? ==> r.error == MissingArgument(name, SourceNames(chain))
  {
    match Lookup(chain, name)
    case Some(v) => Success(v)
    case None => Failure(MissingArgument(name, SourceNames(chain)))
  }

  /** `BindChain.architectures`: the architectures of the first link that has
      an opinion, tagged with that link's name; `None` when no link has one. */
  function Architectures(chain: Chain): (r: Option<(string, seq<Arch>)>)
    ensures r.None? <==> forall k :: 0 <= k < |chain| ==> chain[k].architectures.None?
  {
    if |chain| == 0 then None
    else if chain[0].architectures.Some? then Some((chain[0].sourceName, chain[0].architectures.value))
    else
      assert forall k :: 1 <= k < |chain| ==> chain[k] == chain[1..][k - 1];
      Architectures(chain[1..])
  }

  /** `Architectures` answers with the first link that has an opinion. */
  lemma {:induction false} ArchitecturesFirst(chain: Chain, k: nat)
    requires k < |chain| && chain[k].architectures.Some?
    requires forall j :: 0 <= j < k ==> chain[j].architectures.None?
    ensures Architectures(chain) == Some((chain[k].sourceName, chain[k].architectures.value))
  {
    if k > 0 {
      assert forall j :: 0 <= j < k - 1 ==> chain[1..][j] == chain[j + 1];
      ArchitecturesFirst(chain[1..], k - 1);
    }
  }

  // ---------------------------------------------------------------------
  // BoundFormatString

  /** Renders scanned pieces against the chain: literal characters are kept,
      each placeholder becomes the string of its bound value. Lookups go left
      to right, so the error reports the first placeholder nobody supplies. */
  function Render(ps: seq<Piece>, chain: Chain): Result<string, Error> {
    if |ps| == 0 then Success("")
    else match ps[0]
      case Lit(c) =>
        var rest :- Render(ps[1..], chain);
        Success([c] + rest)
      case Param(n, _) =>
        var v :- ArgumentValue(chain, n);
        var rest :- Render(ps[1..], chain);
        Success(v.value + rest)
  }

  /** `str(BoundFormatString.FromStringAndChain(s, chain))`: a string without
      placeholders is returned as it is, otherwise every placeholder is
      replaced, in a single pass, by the string of its value. */
  function Format(s: string, chain: Chain): (r: Result<string, Error>)
    ensures FindAll(s) == [] ==> r == Success(s)
    ensures FindAll(s) != [] ==> r == Render(Scan(s), chain)
  {
    if FindAll(s) == [] then Success(s) else Render(Scan(s), chain)
  }

  /** The position of the first of `names` that no link of the chain
      supplies; `|names|` when every name is supplied. */
  function FirstMissing(names: seq<string>, chain: Chain): (i: nat)
    ensures i <= |names|
    ensures forall j :: 0 <= j < i ==> Lookup(chain, names[j]).Some?
    ensures i < |names| ==> Lookup(chain, names[i]).None?
  {
    if |names| == 0 || Lookup(chain, names[0]).None? then 0
    else 1 + FirstMissing(names[1..], chain)
  }

  /** Rendering fails exactly when some placeholder has no value, and then
      reports the first such placeholder and every source of the chain. */
  lemma {:induction false} RenderFailure(ps: seq<Piece>, chain: Chain)
    ensures Render(ps, chain).Failure? <==> FirstMissing(ParamNames(ps), chain) < |ParamNames(ps)|
    ensures Render(ps, chain).Failure? ==>
      Render(ps, chain).error ==
        MissingArgument(ParamNames(ps)[FirstMissing(ParamNames(ps), chain)], SourceNames(chain))
  {
    if |ps| > 0 {
      RenderFailure(ps[1..], chain);
      match ps[0]
      case Lit(c) =>
        assert ParamNames(ps) == ParamNames(ps[1..]);
      case Param(n, _) =>
        var names := ParamNames(ps[1..]);
        assert ParamNames(ps) == [n] + names;
        assert ([n] + names)[1..] == names;
    }
  }

  /** Formatting fails exactly when a placeholder of `s` is supplied by no
      link; the error names the first such placeholder. */
  lemma FormatFailure(s: string, chain: Chain)
    ensures Format(s, chain).Failure? <==> FirstMissing(FindAll(s), chain) < |FindAll(s)|
    ensures Format(s, chain).Failure? ==>
      Format(s, chain).error == MissingArgument(FindAll(s)[FirstMissing(FindAll(s), chain)], SourceNames(chain))
  {
    RenderFailure(Scan(s), chain);
  }

  /** Rendering distributes over concatenation of pieces. */
  lemma {:induction false} RenderAppend(ps: seq<Piece>, qs: seq<Piece>, chain: Chain)
    requires Render(ps, chain).Success? && Render(qs, chain).Success?
    ensures Render(ps + qs, chain) == Success(Render(ps, chain).value + Render(qs, chain).value)
  {
    if |ps| == 0 {
      assert ps + qs == qs;
      assert Render(ps, chain) == Success("");
      assert "" + Render(qs, chain).value == Render(qs, chain).value;
    } else {
      var rest := ps[1..];
      assert (ps + qs)[0] == ps[0];
      assert (ps + qs)[1..] == rest + qs;
      var head := RenderHead(ps, chain);
      RenderAppend(rest, qs, chain);
      var after := RenderHead(ps + qs, chain);
      var tail, other := Render(rest, chain).value, Render(qs, chain).value;
      assert after + (tail + other) == (head + tail) + other;
    }
  }

  /** The text the first piece renders to, when the whole renders. */
  lemma RenderHead(ps: seq<Piece>, chain: Chain) returns (head: string)
    requires |ps| > 0
    requires Render(ps, chain).Success? ||
      (Render(ps[1..], chain).Success? && (ps[0].Param? ==> ArgumentValue(chain, ps[0].name).Success?))
    ensures Render(ps[1..], chain).Success?
    ensures Render(ps, chain) == Success(head + Render(ps[1..], chain).value)
    ensures head == (if ps[0].Lit? then [ps[0].c] else ArgumentValue(chain, ps[0].name).value.value)
  {
    match ps[0]
    case Lit(c) => head := [c];
    case Param(n, _) => head := ArgumentValue(chain, n).value.value;
  }

  /** A placeholder is replaced by its value verbatim: the value is never
      scanned again, even when it itself looks like a placeholder. */
  lemma FormatPlaceholder(name: string, chain: Chain)
    requires Text.IsName(name) && Lookup(chain, name).Some?
    ensures Format("${" + name + "}", chain) == Success(Lookup(chain, name).value.value)
  {
    FindAllOfPlaceholder(name);
    RenderOneParam(name, "${" + name + "}", chain);
  }

  lemma RenderOneParam(name: string, raw: string, chain: Chain)
    requires Lookup(chain, name).Some?
    ensures Render([Param(name, raw)], chain) == Success(Lookup(chain, name).value.value)
  {
    var ps := [Param(name, raw)];
    var v := Lookup(chain, name).value;
    assert ArgumentValue(chain, name) == Success(v);
    assert ps[1..] == [];
    assert Render(ps[1..], chain) == Success("");
    assert v.value + "" == v.value;
  }

  /** Single pass, on an example: `a` is bound to the text `${b}` and `b` to
      `x`; formatting `${a}` gives `${b}`, not `x`. */
  lemma FormatIsSinglePass()
    ensures Format("${a}", [BindSource("cli", None, [("a", "${b}"), ("b", "x")])]) == Success("${b}")
  {
    var chain := [BindSource("cli", None, [("a", "${b}"), ("b", "x")])];
    LinkValueFirst(chain[0].arguments, "a", 0);
    LookupFirst(chain, "a", 0);
    assert Text.IsName("a");
    FormatPlaceholder("a", chain);
    assert "${" + "a" + "}" == "${a}";
  }

  // ---------------------------------------------------------------------
  // `FromStringAndChain` as written: one `re.sub` per name found

  /** The format string while `FromStringAndChain` rewrites it: literal
      characters, placeholders not rewritten yet, and the fields `{name}`
      the rewriting leaves. */
  datatype Tok = Ch(c: char) | Ph(name: string, raw: string) | Field(name: string)

  function RewriteOne(p: Piece, done: set<string>): Tok {
    match p
    case Lit(c) => Ch(c)
    case Param(n, raw) => if n in done then Field(n) else Ph(n, raw)
  }

  /** The scanned text with the placeholders of the names in `done`
      rewritten into fields. */
  function Rewritten(ps: seq<Piece>, done: set<string>): (ts: seq<Tok>)
    ensures |ts| == |ps| && forall i :: 0 <= i < |ps| ==> ts[i] == RewriteOne(ps[i], done)
  {
    if |ps| == 0 then [] else [RewriteOne(ps[0], done)] + Rewritten(ps[1..], done)
  }

  /** `re.sub(r"\${\s*" + a + r"\s*}", "{" + a + "}", format_string)` on a
      format string whose only braces are those of placeholders and fields.
      A match starts at a `$` and holds no other, so the leftmost
      non-overlapping matches are the placeholders named `a` and every `$`
      standing right before a field `{a}` an earlier rewrite left. */
  function SubName(ts: seq<Tok>, a: string): seq<Tok>
    decreases |ts|
  {
    if |ts| == 0 then []
    else if |ts| >= 2 && ts[0] == Ch('$') && ts[1] == Field(a) then [Field(a)] + SubName(ts[2..], a)
    else if ts[0].Ph? && ts[0].name == a then [Field(a)] + SubName(ts[1..], a)
    else [ts[0]] + SubName(ts[1..], a)
  }

  /** The loop of `FromStringAndChain`: one rewrite for each name
      `findall` reports, repeats included. */
  function SubNames(ts: seq<Tok>, names: seq<string>): seq<Tok>
    decreases |names|
  {
    if |names| == 0 then ts else SubNames(SubName(ts, names[0]), names[1..])
  }

  function FillOne(t: Tok, chain: Chain): Result<string, Error> {
    match t
    case Ch(c) => Success([c])
    case Ph(_, raw) => Success(raw)
    case Field(n) =>
      var v :- ArgumentValue(chain, n);
      Success(v.value)
  }

  /** `format_string.format(**values)`: characters are kept and each field
      becomes the string of its value. */
  function Fill(ts: seq<Tok>, chain: Chain): Result<string, Error> {
    if |ts| == 0 then Success("")
    else
      var head :- FillOne(ts[0], chain);
      var rest :- Fill(ts[1..], chain);
      Success(head + rest)
  }

  /** `str(BoundFormatString.FromStringAndChain(s, chain))` as written: the
      first name found that no link supplies raises; a string without
      placeholders is returned as it is; otherwise every name found, repeats
      included, rewrites its placeholders into fields, and the result is
      formatted. */
  function FormatAsWritten(s: string, chain: Chain): (r: Result<string, Error>)
    ensures FindAll(s) == [] ==> r == Success(s)
    ensures FirstMissing(FindAll(s), chain) < |FindAll(s)| ==>
      r == Failure(MissingArgument(FindAll(s)[FirstMissing(FindAll(s), chain)], SourceNames(chain)))
  {
    var names := FindAll(s);
    var i := FirstMissing(names, chain);
    if i < |names| then Failure(MissingArgument(names[i], SourceNames(chain)))
    else if |names| == 0 then Success(s)
    else Fill(SubNames(Rewritten(Scan(s), {}), names), chain)
  }

  /** No literal `$` stands right before a placeholder. */
  predicate NoDollarBefore(ps: seq<Piece>) {
    forall i :: 0 <= i < |ps| - 1 && ps[i] == Lit('$') ==> !ps[i + 1].Param?
  }

  /** Without a `$` before a placeholder, one rewrite turns exactly the
      placeholders named `a` into fields. */
  lemma {:induction false} SubNameRewritten(ps: seq<Piece>, done: set<string>, a: string)
    requires NoDollarBefore(ps)
    ensures SubName(Rewritten(ps, done), a) == Rewritten(ps, done + {a})
    decreases |ps|
  {
    if |ps| > 0 {
      var ts := Rewritten(ps, done);
      assert |ps| >= 2 && ts[0] == Ch('$') ==> !ts[1].Field? by {
        if |ps| >= 2 && ts[0] == Ch('$') {
          assert ps[0] == Lit('$');
        }
      }
      assert NoDollarBefore(ps[1..]) by {
        forall i | 0 <= i < |ps[1..]| - 1 && ps[1..][i] == Lit('$') ensures !ps[1..][i + 1].Param? {
          assert ps[i + 1] == Lit('$');
        }
      }
      SubNameRewritten(ps[1..], done, a);
      assert ts[1..] == Rewritten(ps[1..], done);
      assert Rewritten(ps, done + {a}) == [RewriteOne(ps[0], done + {a})] + Rewritten(ps[1..], done + {a});
    }
  }

  /** Without a `$` before a placeholder, the loop rewrites exactly the
      placeholders of the names found. */
  lemma {:induction false} SubNamesRewritten(ps: seq<Piece>, done: set<string>, names: seq<string>)
    requires NoDollarBefore(ps)
    ensures SubNames(Rewritten(ps, done), names) == Rewritten(ps, done + Elems(names))
    decreases |names|
  {
    if |names| == 0 {
      assert done + Elems(names) == done;
    } else {
      SubNameRewritten(ps, done, names[0]);
      SubNamesRewritten(ps, done + {names[0]}, names[1..]);
      assert done + {names[0]} + Elems(names[1..]) == done + Elems(names) by {
        assert forall x :: x in names <==> x == names[0] || x in names[1..];
      }
    }
  }

  /** Once every placeholder is a field, formatting renders the pieces. */
  lemma {:induction false} FillRewritten(ps: seq<Piece>, done: set<string>, chain: Chain)
    requires Elems(ParamNames(ps)) <= done
    ensures Fill(Rewritten(ps, done), chain) == Render(ps, chain)
    decreases |ps|
  {
    if |ps| > 0 {
      var ts := Rewritten(ps, done);
      assert ts[1..] == Rewritten(ps[1..], done);
      match ps[0]
      case Lit(c) =>
        assert ParamNames(ps) == ParamNames(ps[1..]);
        FillRewritten(ps[1..], done, chain);
      case Param(n, _) =>
        assert ParamNames(ps) == [n] + ParamNames(ps[1..]);
        assert n in Elems(ParamNames(ps));
        assert Elems(ParamNames(ps[1..])) <= done by {
          forall x | x in Elems(ParamNames(ps[1..])) ensures x in done {
            assert x in Elems(ParamNames(ps));
          }
        }
        FillRewritten(ps[1..], done, chain);
    }
  }

  /** The one-scan `Format` is what the source computes whenever no
      literal `$` stands right before a placeholder. */
  lemma FormatAgrees(s: string, chain: Chain)
    requires NoDollarBefore(Scan(s))
    ensures FormatAsWritten(s, chain) == Format(s, chain)
  {
    var names := FindAll(s);
    FormatFailure(s, chain);
    if FirstMissing(names, chain) == |names| && |names| > 0 {
      SubNamesRewritten(Scan(s), {}, names);
      assert {} + Elems(names) == Elems(ParamNames(Scan(s)));
      FillRewritten(Scan(s), Elems(names), chain);
    }
  }

  /** A literal `$` before a placeholder whose name occurs twice: the second
      rewrite of `a` takes the `$` with it. For instance `$${a}${a}` with `a`
      bound to `X` gives `XX` where the one-pass `Format` gives `$XX`. */
  lemma FormatEatsDollar(a: string, x: string)
    requires Text.IsName(a)
    ensures var chain := [BindSource("cli", None, [(a, x)])];
      var s := "$" + (("${" + a + "}") + ("${" + a + "}"));
      FormatAsWritten(s, chain) == Success(x + x) && Format(s, chain) == Success("$" + (x + x))
  {
    var chain := [BindSource("cli", None, [(a, x)])];
    var raw := "${" + a + "}";
    var s := "$" + (raw + raw);
    var ps := [Lit('$'), Param(a, raw), Param(a, raw)];
    assert Scan(s) == ps && FindAll(s) == [a, a] by {
      DollarFindAll(a);
    }
    ExampleValue(chain, a, x);
    assert Format(s, chain) == Success("$" + (x + x)) by {
      DollarOnePass(s, chain, a, raw, x);
    }
    assert FormatAsWritten(s, chain) == Success(x + x) by {
      DollarAsWritten(s, chain, a, raw, x);
    }
  }

  /** `findall` reports `a` twice in `$${a}${a}`. */
  lemma DollarFindAll(a: string)
    requires Text.IsName(a)
    ensures var raw := "${" + a + "}";
      Scan("$" + (raw + raw)) == [Lit('$'), Param(a, raw), Param(a, raw)] &&
      FindAll("$" + (raw + raw)) == [a, a]
  {
    var raw := "${" + a + "}";
    var q := Param(a, raw);
    DollarScan(a);
    assert ParamNames([q]) == [a] + ParamNames([]);
    assert ParamNames([q, q]) == [a] + ParamNames([q]);
    assert ParamNames([Lit('$'), q, q]) == ParamNames([q, q]);
  }

  lemma DollarOnePass(s: string, chain: Chain, a: string, raw: string, x: string)
    requires Scan(s) == [Lit('$'), Param(a, raw), Param(a, raw)] && FindAll(s) == [a, a]
    requires ArgumentValue(chain, a) == Success(BoundValue("cli", x))
    ensures Format(s, chain) == Success("$" + (x + x))
  {
    DollarRender(chain, a, raw, x);
  }

  lemma DollarAsWritten(s: string, chain: Chain, a: string, raw: string, x: string)
    requires Scan(s) == [Lit('$'), Param(a, raw), Param(a, raw)] && FindAll(s) == [a, a]
    requires ArgumentValue(chain, a) == Success(BoundValue("cli", x))
    ensures FormatAsWritten(s, chain) == Success(x + x)
  {
    assert FirstMissing([a, a], chain) == 2 by {
      assert [a, a][1..] == [a];
      assert [a][1..] == [];
    }
    DollarRewrite(chain, a, raw, x);
  }

  /** `$${a}${a}` scans to a literal `$` and two placeholders `a`. */
  lemma DollarScan(a: string)
    requires Text.IsName(a)
    ensures var raw := "${" + a + "}";
      Scan("$" + (raw + raw)) == [Lit('$'), Param(a, raw), Param(a, raw)]
  {
    var raw := "${" + a + "}";
    assert (raw + raw)[0] == '$';
    LoneDollar(raw + raw);
    PlaceholderTwice(a);
  }

  /** A `$` not followed by `{` is a literal character. */
  lemma LoneDollar(t: string)
    requires |t| > 0 && t[0] != '{'
    ensures Scan("$" + t) == [Lit('$')] + Scan(t)
  {
    var s := "$" + t;
    assert s[1] == t[0];
    assert MatchAt(s).None?;
    assert s[1..] == t;
  }

  /** A placeholder written twice scans to two parameters. */
  lemma PlaceholderTwice(name: string)
    requires Text.IsName(name)
    ensures Scan(("${" + name + "}") + ("${" + name + "}")) ==
      [Param(name, "${" + name + "}"), Param(name, "${" + name + "}")]
  {
    var p := "${" + name + "}";
    assert Placeholder("", name, "") == p;
    ScanPlaceholderPrefix("", name, "", p);
    FindAllOfPlaceholder(name);
  }

  lemma ExampleValue(chain: Chain, a: string, x: string)
    requires chain == [BindSource("cli", None, [(a, x)])]
    ensures ArgumentValue(chain, a) == Success(BoundValue("cli", x))
  {
    LinkValueFirst(chain[0].arguments, a, 0);
    LookupFirst(chain, a, 0);
  }

  lemma DollarRender(chain: Chain, a: string, raw: string, x: string)
    requires ArgumentValue(chain, a) == Success(BoundValue("cli", x))
    ensures Render([Lit('$'), Param(a, raw), Param(a, raw)], chain) == Success("$" + (x + x))
  {
    var q := Param(a, raw);
    assert Render([], chain) == Success("");
    assert [q][1..] == [];
    assert Render([q], chain) == Success(x + "");
    assert x + "" == x;
    assert [q, q][1..] == [q];
    assert Render([q, q], chain) == Success(x + x);
    assert [Lit('$'), q, q][1..] == [q, q];
    assert Render([Lit('$'), q, q], chain) == Success(['$'] + (x + x));
  }

  lemma DollarRewrite(chain: Chain, a: string, raw: string, x: string)
    requires ArgumentValue(chain, a) == Success(BoundValue("cli", x))
    ensures Fill(SubNames(Rewritten([Lit('$'), Param(a, raw), Param(a, raw)], {}), [a, a]), chain) == Success(x + x)
  {
    var f := Field(a);
    DollarSubNames(a, raw);
    assert Fill([f, f], chain) == Success(x + x) by {
      assert FillOne(f, chain) == Success(x);
      assert Fill([], chain) == Success("");
      assert [f][1..] == [];
      assert Fill([f], chain) == Success(x + "");
      assert x + "" == x;
      assert [f, f][1..] == [f];
    }
  }

  /** The first rewrite of `a` leaves `$` then a field; the second takes the
      `$` with that field. */
  lemma DollarSubNames(a: string, raw: string)
    ensures SubNames(Rewritten([Lit('$'), Param(a, raw), Param(a, raw)], {}), [a, a]) ==
      [Field(a), Field(a)]
  {
    var ps := [Lit('$'), Param(a, raw), Param(a, raw)];
    var ph := Ph(a, raw);
    var f := Field(a);
    var t0 := [Ch('$'), ph, ph];
    var t1 := [Ch('$'), f, f];
    assert Rewritten(ps, {}) == t0;
    assert SubName(t0, a) == t1 by {
      assert SubName([], a) == [];
      assert [ph][1..] == [];
      assert SubName([ph], a) == [f];
      assert [ph, ph][1..] == [ph];
      assert SubName([ph, ph], a) == [f, f];
      assert t0[1..] == [ph, ph];
    }
    assert SubName(t1, a) == [f, f] by {
      assert SubName([], a) == [];
      assert [f][1..] == [];
      assert SubName([f], a) == [f];
      assert t1[2..] == [f];
    }
    assert SubNames(t0, [a, a]) == [f, f] by {
      assert [a, a][1..] == [a];
      assert [a][1..] == [];
      assert SubNames([f, f], []) == [f, f];
      assert SubNames(t1, [a]) == [f, f];
    }
  }
}
