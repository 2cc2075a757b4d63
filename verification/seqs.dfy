/** Generic facts about sequences: their element sets, distinctness,
    flattening and filtering by membership in a set. */
module Seqs {

  function Elems<T>(s: seq<T>): set<T> {
    set x | x in s
  }

  predicate Distinct<T(==)>(s: seq<T>) {
    forall i, j :: 0 <= i < j < |s| ==> s[i] != s[j]
  }

  /** The tail of a sequence without repeats holds neither its head nor
      any repeat. */
  lemma DistinctTail<T>(s: seq<T>)
    requires Distinct(s) && |s| > 0
    ensures Distinct(s[1..])
    ensures forall x :: x in s[1..] ==> x in s && x != s[0]
  {
    forall x | x in s[1..] ensures x in s && x != s[0] {
      var i :| 0 <= i < |s[1..]| && s[1..][i] == x;
      assert s[i + 1] == x;
    }
  }

  /** Concatenation of a sequence of sequences. */
  function Flatten<T>(xss: seq<seq<T>>): seq<T> {
    if |xss| == 0 then [] else xss[0] + Flatten(xss[1..])
  }

  lemma FlattenAppend<T>(xss: seq<seq<T>>, yss: seq<seq<T>>)
    ensures Flatten(xss + yss) == Flatten(xss) + Flatten(yss)
  {
    if |xss| > 0 {
      assert (xss + yss)[1..] == xss[1..] + yss;
      FlattenAppend(xss[1..], yss);
    } else {
      assert xss + yss == yss;
    }
  }

  /** The elements of `s` that are in `keep`, in their order. */
  function Keep<T(==)>(s: seq<T>, keep: set<T>): (r: seq<T>)
    ensures Elems(r) == Elems(s) * keep
    ensures |r| <= |s|
    ensures Distinct(s) ==> Distinct(r)
  {
    if |s| == 0 then []
    else
      var rest := Keep(s[1..], keep);
      assert Elems(s) == {s[0]} + Elems(s[1..]) by { assert s == [s[0]] + s[1..]; }
      if s[0] in keep then
        assert Elems([s[0]] + rest) == {s[0]} + Elems(rest);
        assert Distinct(s) ==> s[0] !in Elems(s[1..]);
        [s[0]] + rest
      else rest
  }

  /** Position of the first element of `s` in `t`; `|s|` when there is none. */
  function FirstIn<T(==)>(s: seq<T>, t: set<T>): (i: nat)
    ensures i <= |s|
    ensures forall j :: 0 <= j < i ==> s[j] !in t
    ensures i < |s| ==> s[i] in t
  {
    if |s| == 0 || s[0] in t then 0 else 1 + FirstIn(s[1..], t)
  }

  /** `reversed(s)`. */
  function Reverse<T>(s: seq<T>): (r: seq<T>)
    ensures |r| == |s| && forall i :: 0 <= i < |s| ==> r[i] == s[|s| - 1 - i]
  {
    if |s| == 0 then [] else Reverse(s[1..]) + [s[0]]
  }

  lemma ReverseElems<T>(s: seq<T>)
    ensures Elems(Reverse(s)) == Elems(s)
    ensures Distinct(s) ==> Distinct(Reverse(s))
  {
    var r := Reverse(s);
    forall x | x in Elems(s) ensures x in Elems(r) {
      var i :| 0 <= i < |s| && s[i] == x;
      assert r[|s| - 1 - i] == x;
    }
    forall x | x in Elems(r) ensures x in Elems(s) {
      var i :| 0 <= i < |r| && r[i] == x;
    }
  }

  /** `s.remove(x)` when `x in s`: the first occurrence goes, nothing else
      changes; without an occurrence `s` is left as it is. */
  function RemoveFirst<T(==)>(s: seq<T>, x: T): (r: seq<T>)
    ensures x !in s ==> r == s
    ensures x in s ==> var i := FirstIn(s, {x});
      i < |s| && s[i] == x && x !in s[..i] && |r| == |s| - 1 && r == s[..i] + s[i + 1..]
  {
    var i := FirstIn(s, {x});
    if i == |s| then
      assert x !in s by {
        forall j | 0 <= j < |s| ensures s[j] != x {
          assert s[j] !in {x};
        }
      }
      s
    else
      assert x !in s[..i] by {
        forall j | 0 <= j < i ensures s[..i][j] != x {
          assert s[j] !in {x};
        }
      }
      s[..i] + s[i + 1..]
  }

  /** Without repeats, removing the first occurrence removes the element. */
  lemma RemoveFirstElems<T>(s: seq<T>, x: T)
    requires Distinct(s)
    ensures Distinct(RemoveFirst(s, x)) && Elems(RemoveFirst(s, x)) == Elems(s) - {x}
  {
    if x in s {
      var i := FirstIn(s, {x});
      CutElems(s, i);
      CutDistinct(s, i);
    }
  }

  lemma CutElems<T>(s: seq<T>, i: nat)
    requires Distinct(s) && i < |s|
    ensures Elems(s[..i] + s[i + 1..]) == Elems(s) - {s[i]}
  {
    var r := s[..i] + s[i + 1..];
    forall y | y in Elems(s) - {s[i]} ensures y in r {
      var j :| 0 <= j < |s| && s[j] == y;
      if j < i { assert r[j] == y; } else { assert r[j - 1] == y; }
    }
    forall y | y in r ensures y in s && y != s[i] {
      var j :| 0 <= j < |r| && r[j] == y;
      if j < i { assert s[j] == y; } else { assert s[j + 1] == y; }
    }
  }

  lemma CutDistinct<T>(s: seq<T>, i: nat)
    requires Distinct(s) && i < |s|
    ensures Distinct(s[..i] + s[i + 1..])
  {
    var r := s[..i] + s[i + 1..];
    forall a, b | 0 <= a < b < |r| ensures r[a] != r[b] {
      var a', b' := if a < i then a else a + 1, if b < i then b else b + 1;
      assert r[a] == s[a'] && r[b] == s[b'];
    }
  }

  lemma ElemsAppend<T>(a: seq<T>, b: seq<T>)
    ensures Elems(a + b) == Elems(a) + Elems(b)
  {
    forall x | x in Elems(a + b) ensures x in Elems(a) + Elems(b) {
      var i :| 0 <= i < |a + b| && (a + b)[i] == x;
      if i < |a| { assert a[i] == x; } else { assert b[i - |a|] == x; }
    }
    forall x | x in Elems(a) + Elems(b) ensures x in Elems(a + b) {
      if x in Elems(a) {
        var i :| 0 <= i < |a| && a[i] == x;
        assert (a + b)[i] == x;
      } else {
        var i :| 0 <= i < |b| && b[i] == x;
        assert (a + b)[|a| + i] == x;
      }
    }
  }

  lemma ElemsCons<T>(s: seq<T>)
    requires |s| > 0
    ensures Elems(s) == {s[0]} + Elems(s[1..])
  {
    assert s == [s[0]] + s[1..];
    ElemsAppend([s[0]], s[1..]);
  }

  /** Two sequences without repeats and without common elements make one
      without repeats. */
  lemma DistinctAppend<T>(a: seq<T>, b: seq<T>)
    requires Distinct(a) && Distinct(b) && Elems(a) !! Elems(b)
    ensures Distinct(a + b)
  {
    forall i, j | 0 <= i < j < |a + b| ensures (a + b)[i] != (a + b)[j] {
      if j < |a| {
        assert (a + b)[i] == a[i] && (a + b)[j] == a[j];
      } else if i >= |a| {
        assert (a + b)[i] == b[i - |a|] && (a + b)[j] == b[j - |a|];
      } else {
        assert (a + b)[i] == a[i] && (a + b)[j] == b[j - |a|];
        assert a[i] in Elems(a) && b[j - |a|] in Elems(b);
      }
    }
  }

  /** Keeping two disjoint parts of `s` that between them hold all of it
      splits `s` in two. */
  lemma {:induction false} KeepComplement<T>(s: seq<T>, t: set<T>, u: set<T>)
    requires Elems(s) <= t + u && t !! u
    ensures |Keep(s, t)| + |Keep(s, u)| == |s|
  {
    if |s| > 0 {
      assert Elems(s[1..]) <= Elems(s);
      KeepComplement(s[1..], t, u);
      assert s[0] in Elems(s);
    }
  }

  lemma FlattenElems<T>(xss: seq<seq<T>>)
    ensures forall x :: x in Flatten(xss) <==> exists i :: 0 <= i < |xss| && x in xss[i]
  {
    forall x | x in Flatten(xss) ensures exists i :: 0 <= i < |xss| && x in xss[i] {
      var i := FlattenSource(xss, x);
    }
    forall x, i | 0 <= i < |xss| && x in xss[i] ensures x in Flatten(xss) {
      FlattenHolds(xss, i, x);
    }
  }

  /** Where an element of a flattened sequence comes from. */
  lemma {:induction false} FlattenSource<T>(xss: seq<seq<T>>, x: T) returns (i: nat)
    requires x in Flatten(xss)
    ensures i < |xss| && x in xss[i]
  {
    assert Flatten(xss) == xss[0] + Flatten(xss[1..]);
    if x in xss[0] {
      i := 0;
    } else {
      var j := FlattenSource(xss[1..], x);
      i := j + 1;
    }
  }

  lemma {:induction false} FlattenHolds<T>(xss: seq<seq<T>>, i: nat, x: T)
    requires i < |xss| && x in xss[i]
    ensures x in Flatten(xss)
  {
    assert Flatten(xss) == xss[0] + Flatten(xss[1..]);
    if i > 0 {
      FlattenHolds(xss[1..], i - 1, x);
    }
  }

  /** Sequences without repeats and without common elements flatten to a
      sequence without repeats. */
  lemma {:induction false} FlattenDistinct<T>(xss: seq<seq<T>>)
    requires forall i :: 0 <= i < |xss| ==> Distinct(xss[i])
    requires forall i, j :: 0 <= i < j < |xss| ==> Elems(xss[i]) !! Elems(xss[j])
    ensures Distinct(Flatten(xss))
  {
    if |xss| > 0 {
      FlattenDistinct(xss[1..]);
      FlattenElems(xss[1..]);
      forall x | x in Elems(xss[0]) ensures x !in Elems(Flatten(xss[1..])) {
        forall i | 0 <= i < |xss[1..]| ensures x !in xss[1..][i] {
          assert Elems(xss[0]) !! Elems(xss[i + 1]);
        }
      }
      DistinctAppend(xss[0], Flatten(xss[1..]));
    }
  }
  /** Keeping every element keeps the sequence. */
  lemma {:induction false} KeepAll<T>(s: seq<T>, keep: set<T>)
    requires Elems(s) <= keep
    ensures Keep(s, keep) == s
  {
    if |s| > 0 {
      assert s[0] in keep;
      KeepAll(s[1..], keep);
      assert s == [s[0]] + s[1..];
    }
  }

  /** Keeping twice keeps what both sets keep. */
  lemma {:induction false} KeepKeep<T>(s: seq<T>, a: set<T>, b: set<T>)
    ensures Keep(Keep(s, a), b) == Keep(s, a * b)
  {
    if |s| > 0 {
      KeepKeep(s[1..], a, b);
      if s[0] in a {
        assert Keep(s, a) == [s[0]] + Keep(s[1..], a);
        assert ([s[0]] + Keep(s[1..], a))[1..] == Keep(s[1..], a);
      }
    }
  }

  /** Only the elements of `s` matter to what `Keep` keeps. */
  lemma {:induction false} KeepOwn<T>(s: seq<T>, a: set<T>, b: set<T>)
    requires Elems(s) * a == Elems(s) * b
    ensures Keep(s, a) == Keep(s, b)
  {
    if |s| > 0 {
      TailInter(s, a, b);
      KeepOwn(s[1..], a, b);
      assert s[0] in Elems(s);
      assert s[0] in a <==> s[0] in Elems(s) * a;
    }
  }

  lemma TailInter<T>(s: seq<T>, a: set<T>, b: set<T>)
    requires |s| > 0 && Elems(s) * a == Elems(s) * b
    ensures Elems(s[1..]) * a == Elems(s[1..]) * b
  {
    assert Elems(s[1..]) <= Elems(s) by { assert s == [s[0]] + s[1..]; }
    assert Elems(s[1..]) * a == Elems(s[1..]) * (Elems(s) * a);
    assert Elems(s[1..]) * b == Elems(s[1..]) * (Elems(s) * b);
  }

  /** Removing the first occurrence of an element that is not the head
      keeps the head. */
  lemma RemoveFirstCons<T>(s: seq<T>, x: T)
    requires |s| > 0 && s[0] != x
    ensures RemoveFirst(s, x) == [s[0]] + RemoveFirst(s[1..], x)
  {
    var t := s[1..];
    assert s == [s[0]] + t;
    if x in t {
      var j := FirstIn(t, {x});
      assert FirstIn(s, {x}) == 1 + j;
      assert RemoveFirst(t, x) == t[..j] + t[j + 1..];
      assert RemoveFirst(s, x) == s[..1 + j] + s[2 + j..];
      assert s[..1 + j] == [s[0]] + t[..j];
      assert s[2 + j..] == t[j + 1..];
    } else {
      assert x !in s;
    }
  }

  /** Without repeats, keeping all but `x` is removing the first (and only)
      occurrence of `x`: the others stay in their order. */
  lemma {:induction false} KeepAllBut<T>(s: seq<T>, x: T, keep: set<T>)
    requires Distinct(s) && Elems(s) * keep == Elems(s) - {x}
    ensures Keep(s, keep) == RemoveFirst(s, x)
  {
    if |s| > 0 {
      assert s[0] in Elems(s);
      assert Elems(s) == {s[0]} + Elems(s[1..]) by { assert s == [s[0]] + s[1..]; }
      DistinctTail(s);
      if s[0] == x {
        assert s[0] !in keep;
        assert Elems(s[1..]) <= keep;
        KeepAll(s[1..], keep);
        assert FirstIn(s, {x}) == 0;
      } else {
        assert s[0] in Elems(s) - {x};
        assert s[0] in keep;
        assert Elems(s[1..]) * keep == Elems(s[1..]) - {x} by {
          assert Elems(s[1..]) * keep == Elems(s[1..]) * (Elems(s) * keep);
        }
        KeepAllBut(s[1..], x, keep);
        RemoveFirstCons(s, x);
      }
    }
  }
}

