/** The `${name}` placeholders of templates: what `PARAM_REGEX`
    (`\${\s*([a-zA-Z0-9-_]+)\s*}`) matches and what `findall` returns.

    A string is scanned left to right into pieces: at each position either a
    placeholder matches (and the scan resumes after it) or one literal
    character is kept. This is exactly how `re.findall` walks its input. */
module Placeholders {
  import opened Wrappers
  import opened Text

  /** The placeholder text `${ name }`: `${`, optional spaces, the name,
      optional spaces, `}`. */
  ghost predicate IsPlaceholderText(p: string, name: string) {
    IsName(name) &&
    exists w1, w2 :: AllSpace(w1) && AllSpace(w2) && p == Placeholder(w1, name, w2)
  }

  /** `${`, the spaces `w1`, the name, the spaces `w2`, `}`. */
  function Placeholder(w1: string, name: string, w2: string): string {
    "${" + w1 + name + w2 + "}"
  }

  /** Length of the run of `\s` characters at the start of `s`. */
  function SpaceRun(s: string): (n: nat)
    ensures n <= |s|
  {
    if |s| > 0 && IsSpace(s[0]) then 1 + SpaceRun(s[1..]) else 0
  }

  /** The run is all spaces and stops at the first character that is not one. */
  lemma {:induction false} SpaceRunSpec(s: string)
    ensures forall i :: 0 <= i < SpaceRun(s) ==> IsSpace(s[i])
    ensures SpaceRun(s) < |s| ==> !IsSpace(s[SpaceRun(s)])
  {
    if |s| > 0 && IsSpace(s[0]) {
      SpaceRunSpec(s[1..]);
    }
  }

  /** Length of the run of name characters at the start of `s`. */
  function NameRun(s: string): (n: nat)
    ensures n <= |s|
  {
    if |s| > 0 && IsNameChar(s[0]) then 1 + NameRun(s[1..]) else 0
  }

  /** The run is all name characters and stops at the first other one. */
  lemma {:induction false} NameRunSpec(s: string)
    ensures forall i :: 0 <= i < NameRun(s) ==> IsNameChar(s[i])
    ensures NameRun(s) < |s| ==> !IsNameChar(s[NameRun(s)])
  {
    if |s| > 0 && IsNameChar(s[0]) {
      NameRunSpec(s[1..]);
    }
  }

  datatype Match = Match(name: string, len: nat)

  /** `PARAM_REGEX.match` at the start of `s`. Greedy runs are exact here:
      spaces, name characters and `}` are disjoint classes, so the regular
      expression has no other way to match. */
  function MatchAt(s: string): (r: Option<Match>)
    ensures r.Some? ==> 4 <= r.value.len <= |s|
  {
    if |s| >= 2 && s[0] == '$' && s[1] == '{' then
      var a := 2 + SpaceRun(s[2..]);
      var n := NameRun(s[a..]);
      if n == 0 then None
      else
        var b := a + n;
        var c := b + SpaceRun(s[b..]);
        if c < |s| && s[c] == '}' then Some(Match(s[a..b], c + 1)) else None
    else None
  }

  /** A match names a well-formed parameter. */
  lemma MatchAtName(s: string)
    requires MatchAt(s).Some?
    ensures IsName(MatchAt(s).value.name)
  {
    var a := 2 + SpaceRun(s[2..]);
    NameRunSpec(s[a..]);
  }

  lemma NameCharNotSpace(c: char)
    requires IsNameChar(c)
    ensures !IsSpace(c) && c != '}'
  {
  }

  /** The run length is determined by where the run stops. */
  lemma {:induction false} SpaceRunIs(t: string, k: nat)
    requires k <= |t|
    requires forall i :: 0 <= i < k ==> IsSpace(t[i])
    requires k < |t| ==> !IsSpace(t[k])
    ensures SpaceRun(t) == k
  {
    if k > 0 {
      assert IsSpace(t[0]);
      SpaceRunIs(t[1..], k - 1);
    }
  }

  lemma {:induction false} NameRunIs(t: string, k: nat)
    requires k <= |t|
    requires forall i :: 0 <= i < k ==> IsNameChar(t[i])
    requires k < |t| ==> !IsNameChar(t[k])
    ensures NameRun(t) == k
  {
    if k > 0 {
      assert IsNameChar(t[0]);
      NameRunIs(t[1..], k - 1);
    }
  }

  /** A match is placeholder text. */
  lemma MatchSound(s: string)
    requires MatchAt(s).Some?
    ensures IsPlaceholderText(s[..MatchAt(s).value.len], MatchAt(s).value.name)
  {
    var a := 2 + SpaceRun(s[2..]);
    var b := a + NameRun(s[a..]);
    var c := b + SpaceRun(s[b..]);
    MatchAtShape(s, a, b, c);
    MatchAtName(s);
    SpaceRunAt(s, 2);
    SpaceRunAt(s, b);
    SoundAt(s, a, b, c);
  }

  /** Text from `${` to `}` with spaces and a name in between is placeholder text. */
  lemma SoundAt(s: string, a: nat, b: nat, c: nat)
    requires 2 <= a <= b <= c < |s| && s[0] == '$' && s[1] == '{' && s[c] == '}'
    requires AllSpace(s[2..a]) && IsName(s[a..b]) && AllSpace(s[b..c])
    ensures IsPlaceholderText(s[..c + 1], s[a..b])
  {
    var p := s[..c + 1];
    SplitPlaceholder(p, a, b, c);
    PrefixSlice(s, c + 1, 2, a);
    PrefixSlice(s, c + 1, a, b);
    PrefixSlice(s, c + 1, b, c);
    Witness(p, s[2..a], s[a..b], s[b..c]);
  }

  /** What a successful `MatchAt` has seen, with the run ends `a`, `b`, `c`. */
  lemma MatchAtShape(s: string, a: nat, b: nat, c: nat)
    requires MatchAt(s).Some?
    requires 2 <= |s| && a == 2 + SpaceRun(s[2..])
    requires a <= |s| && b == a + NameRun(s[a..])
    requires b <= |s| && c == b + SpaceRun(s[b..])
    ensures 2 <= a < b <= c < |s| && s[0] == '$' && s[1] == '{' && s[c] == '}'
    ensures MatchAt(s).value.name == s[a..b] && MatchAt(s).value.len == c + 1
  {
  }

  lemma PrefixSlice(s: string, n: nat, i: nat, j: nat)
    requires i <= j <= n <= |s|
    ensures s[..n][i..j] == s[i..j]
  {
  }

  lemma SpaceRunAt(s: string, i: nat)
    requires i <= |s|
    ensures AllSpace(s[i..i + SpaceRun(s[i..])])
  {
    SpaceRunSpec(s[i..]);
    var t := s[i..i + SpaceRun(s[i..])];
    forall k | 0 <= k < |t| ensures IsSpace(t[k]) {
      assert t[k] == s[i..][k];
    }
  }

  /** Text from `${` to `}` cut at three points is a placeholder of its pieces. */
  lemma SplitPlaceholder(p: string, a: nat, b: nat, c: nat)
    requires 2 <= a <= b <= c && c + 1 == |p| && p[0] == '$' && p[1] == '{' && p[c] == '}'
    ensures p == Placeholder(p[2..a], p[a..b], p[b..c])
  {
    assert p[..2] == "${";
    assert p[c..] == "}";
    assert p == p[..2] + p[2..a] + p[a..b] + p[b..c] + p[c..];
  }

  lemma Witness(p: string, w1: string, name: string, w2: string)
    requires IsName(name) && AllSpace(w1) && AllSpace(w2)
    requires p == Placeholder(w1, name, w2)
    ensures IsPlaceholderText(p, name)
  {
  }

  /** Placeholder text at the start of a string is matched, whatever follows. */
  lemma MatchComplete(w1: string, name: string, w2: string, rest: string)
    requires AllSpace(w1) && AllSpace(w2) && IsName(name)
    ensures MatchAt(Placeholder(w1, name, w2) + rest) == Some(Match(name, |w1| + |name| + |w2| + 3))
  {
    var s := Placeholder(w1, name, w2) + rest;
    var a := 2 + |w1|;
    var b := a + |name|;
    var c := b + |w2|;
    PlaceholderParts(w1, name, w2, rest);
    PlaceholderRuns(w1, name, w2, rest);
    MatchAtSteps(s, a, b, c);
  }

  /** The three runs of placeholder text have the lengths of its parts. */
  lemma PlaceholderRuns(w1: string, name: string, w2: string, rest: string)
    requires AllSpace(w1) && AllSpace(w2) && IsName(name)
    ensures var s := Placeholder(w1, name, w2) + rest;
      var a, b := 2 + |w1|, 2 + |w1| + |name|;
      b <= |s| && SpaceRun(s[2..]) == |w1| && NameRun(s[a..]) == |name| && SpaceRun(s[b..]) == |w2|
  {
    var s := Placeholder(w1, name, w2) + rest;
    var a := 2 + |w1|;
    var b := a + |name|;
    var c := b + |w2|;
    PlaceholderParts(w1, name, w2, rest);
    NameCharNotSpace(name[0]);
    assert s[2..][|w1|] == name[0];
    SpaceRunIs(s[2..], |w1|);
    if |w2| > 0 {
      assert !IsNameChar(w2[0]) by {
        if IsNameChar(w2[0]) { NameCharNotSpace(w2[0]); }
      }
    }
    NameRunIs(s[a..], |name|);
    SpaceRunIs(s[b..], |w2|);
  }

  /** Where the parts of placeholder text sit in a string it starts. */
  lemma PlaceholderParts(w1: string, name: string, w2: string, rest: string)
    ensures var s := Placeholder(w1, name, w2) + rest;
      var a, b, c := 2 + |w1|, 2 + |w1| + |name|, 2 + |w1| + |name| + |w2|;
      c < |s| && s[0] == '$' && s[1] == '{' &&
      s[2..a] == w1 && s[a..b] == name && s[b..c] == w2 && s[c] == '}'
  {
    var s1 := "${" + w1;
    var s2 := s1 + name;
    var s3 := s2 + w2;
    var s4 := s3 + "}";
    var s := s4 + rest;
    var a := 2 + |w1|;
    var b := a + |name|;
    var c := b + |w2|;
    SliceOfAppend(s4, rest, 0, c + 1);
    SliceOfAppend(s3, "}", 0, c);
    SliceOfAppend(s2, w2, 0, b);
    SliceOfAppend(s1, name, 0, a);
    assert s[..c] == s3;
    assert s[..b] == s2;
    assert s[..a] == s1;
    assert s[2..a] == w1;
    assert s[a..b] == name;
    assert s[b..c] == w2;
  }

  lemma SliceOfAppend(x: string, y: string, i: nat, j: nat)
    requires i <= j <= |x|
    ensures (x + y)[i..j] == x[i..j]
  {
  }

  /** The steps `MatchAt` takes, spelled out. */
  lemma MatchAtSteps(s: string, a: nat, b: nat, c: nat)
    requires 2 <= a < b <= c < |s| && s[0] == '$' && s[1] == '{' && s[c] == '}'
    requires SpaceRun(s[2..]) == a - 2 && NameRun(s[a..]) == b - a && SpaceRun(s[b..]) == c - b
    ensures MatchAt(s) == Some(Match(s[a..b], c + 1))
  {
  }

  /** `MatchAt` recognises exactly the placeholder texts. */
  lemma MatchCharacterization(s: string, name: string, len: nat)
    requires len <= |s|
    ensures MatchAt(s) == Some(Match(name, len)) <==> IsPlaceholderText(s[..len], name)
  {
    if MatchAt(s) == Some(Match(name, len)) {
      MatchSound(s);
    }
    if IsPlaceholderText(s[..len], name) {
      PlaceholderPrefixMatches(s, name, len);
    }
  }

  lemma PlaceholderPrefixMatches(s: string, name: string, len: nat)
    requires len <= |s| && IsPlaceholderText(s[..len], name)
    ensures MatchAt(s) == Some(Match(name, len))
  {
    var w1, w2 :| AllSpace(w1) && AllSpace(w2) && s[..len] == Placeholder(w1, name, w2);
    PrefixMatchesWith(s, w1, name, w2, len);
  }

  lemma PrefixMatchesWith(s: string, w1: string, name: string, w2: string, len: nat)
    requires len <= |s| && AllSpace(w1) && AllSpace(w2) && IsName(name)
    requires s[..len] == Placeholder(w1, name, w2)
    ensures MatchAt(s) == Some(Match(name, len))
  {
    var t := s[len..];
    MatchComplete(w1, name, w2, t);
    assert Placeholder(w1, name, w2) + t == s by {
      assert s == s[..len] + t;
    }
    assert |w1| + |name| + |w2| + 3 == len;
  }

  // ---------------------------------------------------------------------
  // Scanning

  datatype Piece = Lit(c: char) | Param(name: string, raw: string)

  /** The left-to-right scan `re.findall` performs. */
  function Scan(s: string): seq<Piece>
    decreases |s|
  {
    if |s| == 0 then []
    else match MatchAt(s)
      case Some(m) => [Param(m.name, s[..m.len])] + Scan(s[m.len..])
      case None => [Lit(s[0])] + Scan(s[1..])
  }

  /** Reassembles the scanned text. */
  function Unscan(ps: seq<Piece>): string {
    if |ps| == 0 then ""
    else match ps[0]
      case Lit(c) => [c] + Unscan(ps[1..])
      case Param(_, raw) => raw + Unscan(ps[1..])
  }

  /** The names of the placeholders among the pieces, in order, repeats kept. */
  function ParamNames(ps: seq<Piece>): seq<string> {
    if |ps| == 0 then []
    else match ps[0]
      case Lit(_) => ParamNames(ps[1..])
      case Param(n, _) => [n] + ParamNames(ps[1..])
  }

  /** `PARAM_REGEX.findall(s)` (also `Template._extract_parameters`). */
  function FindAll(s: string): seq<string> {
    ParamNames(Scan(s))
  }

  /** Scanning loses nothing: the pieces spell the original string. */
  lemma {:induction false} ScanRoundTrip(s: string)
    ensures Unscan(Scan(s)) == s
    decreases |s|
  {
    if |s| > 0 {
      match MatchAt(s)
      case Some(m) =>
        var ps := [Param(m.name, s[..m.len])] + Scan(s[m.len..]);
        assert Scan(s) == ps && ps[1..] == Scan(s[m.len..]);
        ScanRoundTrip(s[m.len..]);
        assert s == s[..m.len] + s[m.len..];
      case None =>
        var ps := [Lit(s[0])] + Scan(s[1..]);
        assert Scan(s) == ps && ps[1..] == Scan(s[1..]);
        ScanRoundTrip(s[1..]);
        assert s == [s[0]] + s[1..];
    }
  }

  /** Every placeholder piece is placeholder text around its name. */
  lemma {:induction false} ScanParamsArePlaceholders(s: string)
    ensures forall i :: 0 <= i < |Scan(s)| && Scan(s)[i].Param? ==>
      IsPlaceholderText(Scan(s)[i].raw, Scan(s)[i].name)
    decreases |s|
  {
    if |s| > 0 {
      match MatchAt(s)
      case Some(m) =>
        MatchSound(s);
        ScanParamsArePlaceholders(s[m.len..]);
      case None =>
        ScanParamsArePlaceholders(s[1..]);
    }
  }

  /** Every name `findall` reports is a well-formed parameter name. */
  lemma {:induction false} FindAllNames(s: string)
    ensures forall n :: n in FindAll(s) ==> IsName(n)
    decreases |s|
  {
    if |s| > 0 {
      match MatchAt(s)
      case Some(m) =>
        MatchAtName(s);
        FindAllNames(s[m.len..]);
        assert Scan(s) == [Param(m.name, s[..m.len])] + Scan(s[m.len..]);
      case None =>
        FindAllNames(s[1..]);
        assert Scan(s) == [Lit(s[0])] + Scan(s[1..]);
    }
  }

  function LitPieces(s: string): (ps: seq<Piece>)
    ensures |ps| == |s|
    ensures forall i :: 0 <= i < |s| ==> ps[i] == Lit(s[i])
  {
    if |s| == 0 then [] else [Lit(s[0])] + LitPieces(s[1..])
  }

  lemma LitPiecesHaveNoNames(s: string)
    ensures ParamNames(LitPieces(s)) == []
  {
    if |s| > 0 {
      assert LitPieces(s)[1..] == LitPieces(s[1..]);
      LitPiecesHaveNoNames(s[1..]);
    }
  }

  /** Text without `$` scans to literal characters, and does not disturb what follows. */
  lemma {:induction false} ScanNoDollarPrefix(s: string, t: string)
    requires '$' !in s
    ensures Scan(s + t) == LitPieces(s) + Scan(t)
    decreases |s|
  {
    if |s| > 0 {
      assert (s + t)[0] == s[0];
      assert MatchAt(s + t).None?;
      assert (s + t)[1..] == s[1..] + t;
      ScanNoDollarPrefix(s[1..], t);
    } else {
      assert s + t == t;
    }
  }

  /** A placeholder at the front is one piece, then scanning resumes after it. */
  lemma ScanPlaceholderPrefix(w1: string, name: string, w2: string, t: string)
    requires AllSpace(w1) && AllSpace(w2) && IsName(name)
    ensures Scan(Placeholder(w1, name, w2) + t) ==
      [Param(name, Placeholder(w1, name, w2))] + Scan(t)
  {
    var p := Placeholder(w1, name, w2);
    MatchComplete(w1, name, w2, t);
    assert (p + t)[..|p|] == p;
    assert (p + t)[|p|..] == t;
  }

  /** A string without `$` has no placeholders at all. */
  lemma NoDollarNoParameters(s: string)
    requires '$' !in s
    ensures FindAll(s) == []
    ensures Scan(s) == LitPieces(s)
  {
    ScanNoDollarPrefix(s, "");
    assert s + "" == s;
    LitPiecesHaveNoNames(s);
  }

  lemma ParamNamesAppend(ps: seq<Piece>, qs: seq<Piece>)
    ensures ParamNames(ps + qs) == ParamNames(ps) + ParamNames(qs)
  {
    if |ps| > 0 {
      assert (ps + qs)[1..] == ps[1..] + qs;
      ParamNamesAppend(ps[1..], qs);
    } else {
      assert ps + qs == qs;
    }
  }

  /** The bare placeholder `${name}` names exactly that parameter. */
  lemma FindAllOfPlaceholder(name: string)
    requires IsName(name)
    ensures Scan("${" + name + "}") == [Param(name, "${" + name + "}")]
    ensures FindAll("${" + name + "}") == [name]
  {
    var p := Placeholder("", name, "");
    assert p == "${" + name + "}" && p + "" == p;
    ScanPlaceholderPrefix("", name, "", "");
    assert Scan(p) == [Param(name, p)] + [];
    assert ParamNames([Param(name, p)]) == [name] + ParamNames([]);
  }

  /** A match holds no `$` after its first character. */
  lemma MatchNoInnerDollar(s: string)
    requires MatchAt(s).Some?
    ensures forall i :: 0 < i < MatchAt(s).value.len ==> s[i] != '$'
  {
    var a, b, c := MatchAtParts(s);
    var len := c + 1;
    forall i | 0 < i < len ensures s[i] != '$' {
      if 2 <= i < c {
        RunsNoDollar(s, a, b, c, i);
      }
    }
  }

  /** The ends of the three runs of a match: spaces, the name, spaces. */
  lemma MatchAtParts(s: string) returns (a: nat, b: nat, c: nat)
    requires MatchAt(s).Some?
    ensures 2 <= a <= b <= c < |s| && s[1] == '{' && s[c] == '}'
    ensures a == 2 + SpaceRun(s[2..]) && b == a + NameRun(s[a..]) && c == b + SpaceRun(s[b..])
    ensures MatchAt(s).value.len == c + 1
  {
    a := 2 + SpaceRun(s[2..]);
    b := a + NameRun(s[a..]);
    c := b + SpaceRun(s[b..]);
  }

  /** No character of the runs between `${` and `}` is a `$`. */
  lemma RunsNoDollar(s: string, a: nat, b: nat, c: nat, i: nat)
    requires 2 <= a <= b <= c <= |s| && 2 <= i < c
    requires a == 2 + SpaceRun(s[2..]) && b == a + NameRun(s[a..]) && c == b + SpaceRun(s[b..])
    ensures s[i] != '$'
  {
    if i < a {
      SpaceRunNoDollar(s[2..], i - 2);
      assert s[2..][i - 2] == s[i];
    } else if i < b {
      NameRunNoDollar(s[a..], i - a);
      assert s[a..][i - a] == s[i];
    } else {
      SpaceRunNoDollar(s[b..], i - b);
      assert s[b..][i - b] == s[i];
    }
  }

  lemma SpaceRunNoDollar(t: string, k: nat)
    requires k < SpaceRun(t)
    ensures t[k] != '$'
  {
    SpaceRunSpec(t);
  }

  lemma NameRunNoDollar(t: string, k: nat)
    requires k < NameRun(t)
    ensures t[k] != '$'
  {
    NameRunSpec(t);
  }

  /** `findall` misses no placeholder: wherever `${ n }` stands in a string,
      `n` is among the names found. A match never runs into the placeholder
      from the left, because its `$` could only be a match's first character. */
  lemma {:induction false} FindAllComplete(u: string, w1: string, n: string, w2: string, v: string)
    requires AllSpace(w1) && AllSpace(w2) && IsName(n)
    ensures n in FindAll(u + Placeholder(w1, n, w2) + v)
    decreases |u|
  {
    var p := Placeholder(w1, n, w2);
    var s := u + p + v;
    if |u| == 0 {
      assert s == p + v;
      ScanPlaceholderPrefix(w1, n, w2, v);
      assert Scan(s)[0] == Param(n, p);
    } else {
      assert s[|u|] == '$';
      match MatchAt(s)
      case Some(m) =>
        MatchNoInnerDollar(s);
        assert m.len <= |u|;
        assert s[m.len..] == u[m.len..] + p + v;
        FindAllComplete(u[m.len..], w1, n, w2, v);
        assert Scan(s) == [Param(m.name, s[..m.len])] + Scan(s[m.len..]);
      case None =>
        assert s[1..] == u[1..] + p + v;
        FindAllComplete(u[1..], w1, n, w2, v);
        assert Scan(s) == [Lit(s[0])] + Scan(s[1..]);
    }
  }
}
