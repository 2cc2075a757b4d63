/** Graphviz output of a graph kept as a `dict` from each node to its
    dependencies: both the OCI graph and the work graph are written this
    way, each under its own graph name and with its own node labels. */
module Dot {
  import opened Seqs
  import opened Text
  import opened Dicts

  /** `digraph <name> {` */
  function Header(name: string): string {
    "digraph " + name + " {"
  }

  /** The line declaring a node; the label is quoted as it is. */
  function NodeLine(text: string): string {
    "  \"" + text + "\";"
  }

  /** The line of an edge from `from` to `to`. */
  function EdgeLine(from: string, to: string): string {
    "  \"" + from + "\" -> \"" + to + "\";"
  }

  /** One node line per node of `ns`, in order. */
  function NodeLines<T>(ns: seq<T>, labelOf: T -> string): (r: seq<string>)
    ensures |r| == |ns| && forall i :: 0 <= i < |ns| ==> r[i] == NodeLine(labelOf(ns[i]))
  {
    seq(|ns|, i requires 0 <= i < |ns| => NodeLine(labelOf(ns[i])))
  }

  /** The edge lines of each node of `ns` in turn, each node's in the order
      of its dependencies. */
  function EdgeLines<T(==)>(g: Dict<T, seq<T>>, ns: seq<T>, labelOf: T -> string): (r: seq<string>)
    requires Elems(ns) <= g.items.Keys
    ensures forall n, d :: n in ns && d in g.items[n] ==> EdgeLine(labelOf(n), labelOf(d)) in r
    decreases |ns|
  {
    if |ns| == 0 then []
    else
      var n := ns[0];
      var ds := g.items[n];
      var out := seq(|ds|, i requires 0 <= i < |ds| => EdgeLine(labelOf(n), labelOf(ds[i])));
      assert Elems(ns[1..]) <= Elems(ns);
      var rest := EdgeLines(g, ns[1..], labelOf);
      assert forall m :: m in ns ==> m == n || m in ns[1..];
      assert forall d :: d in ds ==> EdgeLine(labelOf(n), labelOf(d)) in out by {
        forall d | d in ds ensures EdgeLine(labelOf(n), labelOf(d)) in out {
          var i :| 0 <= i < |ds| && ds[i] == d;
          assert out[i] == EdgeLine(labelOf(n), labelOf(d));
        }
      }
      out + rest
  }

  /** Every edge line comes from an edge of the graph. */
  lemma {:induction false} EdgeLineSource<T>(g: Dict<T, seq<T>>, ns: seq<T>, labelOf: T -> string, l: string) returns (n: T, d: T)
    requires Elems(ns) <= g.items.Keys && l in EdgeLines(g, ns, labelOf)
    ensures n in ns && n in g.items && d in g.items[n] && l == EdgeLine(labelOf(n), labelOf(d))
    decreases |ns|
  {
    var m := ns[0];
    var ds := g.items[m];
    var out := seq(|ds|, i requires 0 <= i < |ds| => EdgeLine(labelOf(m), labelOf(ds[i])));
    assert Elems(ns[1..]) <= Elems(ns);
    var rest := EdgeLines(g, ns[1..], labelOf);
    assert EdgeLines(g, ns, labelOf) == out + rest;
    if l in out {
      var i :| 0 <= i < |ds| && out[i] == l;
      n, d := m, ds[i];
    } else {
      n, d := EdgeLineSource(g, ns[1..], labelOf, l);
    }
  }

  /** The lines written for graph `name`: the header, a line per node in
      insertion order, the edge lines, and the closing brace. */
  function Lines<T(==)>(name: string, g: Dict<T, seq<T>>, labelOf: T -> string): seq<string>
    requires g.Valid()
  {
    [Header(name)] + NodeLines(g.keys, labelOf) + EdgeLines(g, g.keys, labelOf) + ["}"]
  }

  /** The header comes first, the closing brace last, and in between a
      line per node and then the edge lines. */
  lemma LinesShape<T>(name: string, g: Dict<T, seq<T>>, labelOf: T -> string)
    requires g.Valid()
    ensures var r := Lines(name, g, labelOf);
      |r| == |g.keys| + |EdgeLines(g, g.keys, labelOf)| + 2 && r[0] == Header(name) && r[|r| - 1] == "}"
  {
  }

  /** Each node is declared, in insertion order, right after the header. */
  lemma LinesNodes<T>(name: string, g: Dict<T, seq<T>>, labelOf: T -> string)
    requires g.Valid()
    ensures var r := Lines(name, g, labelOf);
      |r| >= |g.keys| + 2 && forall i :: 0 <= i < |g.keys| ==> r[1 + i] == NodeLine(labelOf(g.keys[i]))
  {
    var nodes := NodeLines(g.keys, labelOf);
    var r := Lines(name, g, labelOf);
    assert forall i :: 0 <= i < |g.keys| ==> r[1 + i] == nodes[i];
  }

  /** The lines between the node lines and the closing brace are exactly
      the edge lines: one for every edge, and none that is not one. */
  lemma LinesEdges<T>(name: string, g: Dict<T, seq<T>>, labelOf: T -> string)
    requires g.Valid()
    ensures var r := Lines(name, g, labelOf);
      |r| >= |g.keys| + 2 && r[1 + |g.keys|..|r| - 1] == EdgeLines(g, g.keys, labelOf)
  {
    var r := Lines(name, g, labelOf);
    var edges := EdgeLines(g, g.keys, labelOf);
    assert r == [Header(name)] + NodeLines(g.keys, labelOf) + edges + ["}"];
    assert r[1 + |g.keys|..|r| - 1] == edges;
  }

  /** `"\n".join(output)`. */
  function Render<T(==)>(name: string, g: Dict<T, seq<T>>, labelOf: T -> string): string
    requires g.Valid()
  {
    Join(Lines(name, g, labelOf), "\n")
  }

  /** When no labelOf and not the graph name holds a newline, the output
      splits back into its lines: one per node, in insertion order, then
      exactly the edges. */
  lemma RenderSplits<T>(name: string, g: Dict<T, seq<T>>, labelOf: T -> string)
    requires g.Valid() && '\n' !in name
    requires forall n :: n in g.items ==> '\n' !in labelOf(n)
    requires forall n, d :: n in g.items && d in g.items[n] ==> '\n' !in labelOf(d)
    ensures Split(Render(name, g, labelOf), '\n') == Lines(name, g, labelOf)
  {
    var r := Lines(name, g, labelOf);
    forall i | 0 <= i < |r| ensures '\n' !in r[i] {
      LineFlat(name, g, labelOf, r, i);
    }
    SplitJoin(r, '\n');
  }

  lemma LineFlat<T>(name: string, g: Dict<T, seq<T>>, labelOf: T -> string, r: seq<string>, i: int)
    requires g.Valid() && '\n' !in name && r == Lines(name, g, labelOf) && 0 <= i < |r|
    requires forall n :: n in g.items ==> '\n' !in labelOf(n)
    requires forall n, d :: n in g.items && d in g.items[n] ==> '\n' !in labelOf(d)
    ensures '\n' !in r[i]
  {
    LinesShape(name, g, labelOf);
    if i == 0 {
      Flat3("digraph ", name, " {");
    } else if i < 1 + |g.keys| {
      LinesNodes(name, g, labelOf);
      assert g.keys[i - 1] in Elems(g.keys);
      Flat3("  \"", labelOf(g.keys[i - 1]), "\";");
    } else if i < |r| - 1 {
      LinesEdges(name, g, labelOf);
      assert r[i] == r[1 + |g.keys|..|r| - 1][i - 1 - |g.keys|];
      var n, d := EdgeLineSource(g, g.keys, labelOf, r[i]);
      Flat3("  \"", labelOf(n), "\" -> \"");
      Flat3("  \"" + labelOf(n) + "\" -> \"", labelOf(d), "\";");
    } else {
      assert r[i] == "}";
    }
  }

  lemma Flat3(a: string, b: string, c: string)
    requires '\n' !in a && '\n' !in b && '\n' !in c
    ensures '\n' !in a + b + c
  {
    forall k | 0 <= k < |a + b + c| ensures (a + b + c)[k] != '\n' {
      if k < |a| { assert (a + b + c)[k] == a[k]; }
      else if k < |a| + |b| { assert (a + b + c)[k] == b[k - |a|]; }
      else { assert (a + b + c)[k] == c[k - |a| - |b|]; }
    }
  }
}
