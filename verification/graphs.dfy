/** Dependency graphs: a map from each node to the set of nodes it depends on.

    Two operations of the pipeline work on them: the transitive closure that
    `Config.partial_config` computes, and the topological order that
    `graphlib.TopologicalSorter.static_order` produces (dependencies first,
    `CycleError` when there is none). */
module Graphs {
  import opened Wrappers
  import opened Errors
  import opened Seqs

  type Graph<T> = map<T, set<T>>

  /** Every dependency is itself a node. */
  predicate Closed<T>(g: Graph<T>) {
    forall x :: x in g ==> g[x] <= g.Keys
  }

  /** `s` is closed under taking dependencies. */
  predicate DepClosed<T>(g: Graph<T>, s: set<T>) {
    s <= g.Keys && forall x :: x in s ==> g[x] <= s
  }

  // ---------------------------------------------------------------------
  // Transitive dependencies

  function Step<T>(g: Graph<T>, s: set<T>): set<T>
    requires s <= g.Keys
  {
    s + (set x, y | x in s && y in g[x] :: y)
  }

  /** `s` together with all of its transitive dependencies. */
  function Reach<T>(g: Graph<T>, s: set<T>): (r: set<T>)
    requires Closed(g) && s <= g.Keys
    ensures s <= r && DepClosed(g, r)
    decreases |g.Keys - s|
  {
    var next := Step(g, s);
    assert next <= g.Keys;
    if next == s then s
    else
      StepShrinks(g, s);
      Reach(g, next)
  }

  /** `Reach` adds nothing that is not needed: it lies inside every
      dependency-closed set containing `s`. */
  lemma {:induction false} ReachLeast<T>(g: Graph<T>, s: set<T>, t: set<T>)
    requires Closed(g) && s <= g.Keys
    requires s <= t && DepClosed(g, t)
    ensures Reach(g, s) <= t
    decreases |g.Keys - s|
  {
    var next := Step(g, s);
    assert next <= t;
    if next != s {
      StepShrinks(g, s);
      ReachLeast(g, next, t);
    }
  }

  lemma StepShrinks<T>(g: Graph<T>, s: set<T>)
    requires Closed(g) && s <= g.Keys && Step(g, s) != s
    ensures |g.Keys - Step(g, s)| < |g.Keys - s|
  {
    var next := Step(g, s);
    var z :| z in next && z !in s;
    var a, b := g.Keys - next, g.Keys - s;
    assert a + {z} <= b;
    assert z !in a;
    assert |a + {z}| == |a| + 1;
    SubsetCard(a + {z}, b);
  }

  lemma SubsetCard<T>(a: set<T>, b: set<T>)
    requires a <= b
    ensures |a| <= |b|
  {
    assert b == a + (b - a);
  }

  // ---------------------------------------------------------------------
  // Topological order

  /** `order` lists every node once, each after all of its dependencies. */
  predicate IsOrder<T>(g: Graph<T>, order: seq<T>) {
    Distinct(order) && Elems(order) == g.Keys &&
    forall i :: 0 <= i < |order| ==> order[i] in g && g[order[i]] <= Elems(order[..i])
  }

  /** A non-empty set of nodes each of which depends on a member of the set:
      what is left when no node is ready, and a witness of a cycle. */
  predicate Stuck<T>(g: Graph<T>, s: set<T>) {
    s != {} && s <= g.Keys && forall x :: x in s ==> g[x] * s != {}
  }

  /** The nodes of `rem` whose dependencies are all in `done`, in order. */
  function Ready<T(!new)>(g: Graph<T>, rem: seq<T>, done: set<T>): (r: seq<T>)
    requires Elems(rem) <= g.Keys
    ensures forall x :: x in r <==> x in rem && g[x] <= done
    ensures Distinct(rem) ==> Distinct(r)
  {
    if |rem| == 0 then []
    else
      assert Elems(rem) == {rem[0]} + Elems(rem[1..]) by { assert rem == [rem[0]] + rem[1..]; }
      var rest := Ready(g, rem[1..], done);
      if g[rem[0]] <= done then
        assert Distinct(rem) ==> rem[0] !in rem[1..];
        [rem[0]] + rest
      else rest
  }

  /** The nodes of `rem` that are not ready, in order. */
  function Waiting<T(!new)>(g: Graph<T>, rem: seq<T>, done: set<T>): (r: seq<T>)
    requires Elems(rem) <= g.Keys
    ensures forall x :: x in r <==> x in rem && !(g[x] <= done)
    ensures Distinct(rem) ==> Distinct(r)
    ensures |r| <= |rem|
  {
    if |rem| == 0 then []
    else
      assert Elems(rem) == {rem[0]} + Elems(rem[1..]) by { assert rem == [rem[0]] + rem[1..]; }
      var rest := Waiting(g, rem[1..], done);
      if g[rem[0]] <= done then rest
      else
        assert Distinct(rem) ==> rem[0] !in rem[1..];
        [rem[0]] + rest
  }

  lemma ReadyWaitingSizes<T(!new)>(g: Graph<T>, rem: seq<T>, done: set<T>)
    requires Elems(rem) <= g.Keys
    ensures |Ready(g, rem, done)| + |Waiting(g, rem, done)| == |rem|
  {
    if |rem| > 0 {
      assert Elems(rem) == {rem[0]} + Elems(rem[1..]) by { assert rem == [rem[0]] + rem[1..]; }
      ReadyWaitingSizes(g, rem[1..], done);
    }
  }

  /** Kahn's algorithm in rounds: every round emits, in order, all the nodes
      whose dependencies have been emitted already. */
  /** What holds between rounds: the nodes not yet emitted and the ones
      emitted so far partition the graph. */
  predicate RoundInvariant<T>(g: Graph<T>, rem: seq<T>, done: set<T>) {
    Closed(g) && Distinct(rem) && Elems(rem) !! done && Elems(rem) + done == g.Keys
  }

  function Sort<T(!new)>(g: Graph<T>, rem: seq<T>, done: set<T>): Result<seq<T>, Error>
    requires RoundInvariant(g, rem, done)
    decreases |rem|
  {
    if |rem| == 0 then Success([])
    else
      var ready := Ready(g, rem, done);
      RoundSplit(g, rem, done);
      if |ready| == 0 then Failure(CycleError)
      else
        var tail := Sort(g, Waiting(g, rem, done), done + Elems(ready));
        if tail.Failure? then tail else Success(ready + tail.value)
  }

  /** A successful sort lists the remaining nodes once each, after their
      dependencies. */
  lemma {:induction false} SortOrders<T(!new)>(g: Graph<T>, rem: seq<T>, done: set<T>)
    requires RoundInvariant(g, rem, done) && Sort(g, rem, done).Success?
    ensures Distinct(Sort(g, rem, done).value) && Elems(Sort(g, rem, done).value) == Elems(rem)
    ensures forall i :: 0 <= i < |Sort(g, rem, done).value| ==>
      Sort(g, rem, done).value[i] in g &&
      g[Sort(g, rem, done).value[i]] <= done + Elems(Sort(g, rem, done).value[..i])
    decreases |rem|
  {
    if |rem| > 0 {
      var ready, waiting := Ready(g, rem, done), Waiting(g, rem, done);
      if |ready| == 0 {
        SortStuck(g, rem, done);
      } else {
        var done' := done + Elems(ready);
        SortRound(g, rem, done);
        RoundSplit(g, rem, done);
        SortOrders(g, waiting, done');
        RoundsCombine(g, done, ready, Sort(g, waiting, done').value);
      }
    }
  }

  /** The nodes left over when the sort stops: those of the round in which
      no node was ready. */
  function Leftover<T(!new)>(g: Graph<T>, rem: seq<T>, done: set<T>): seq<T>
    requires RoundInvariant(g, rem, done)
    decreases |rem|
  {
    if |rem| == 0 then []
    else
      var ready := Ready(g, rem, done);
      RoundSplit(g, rem, done);
      if |ready| == 0 then rem
      else Leftover(g, Waiting(g, rem, done), done + Elems(ready))
  }

  /** The sort fails exactly when nodes are left over, and then with a
      `CycleError`. */
  lemma {:induction false} SortFailsLeftover<T(!new)>(g: Graph<T>, rem: seq<T>, done: set<T>)
    requires RoundInvariant(g, rem, done)
    ensures Sort(g, rem, done).Failure? <==> |Leftover(g, rem, done)| > 0
    ensures Sort(g, rem, done).Failure? ==> Sort(g, rem, done).error == CycleError
    decreases |rem|
  {
    if |rem| > 0 {
      var ready, waiting := Ready(g, rem, done), Waiting(g, rem, done);
      if |ready| == 0 {
        SortStuck(g, rem, done);
        LeftoverAll(g, rem, done);
      } else {
        SortRound(g, rem, done);
        LeftoverRound(g, rem, done);
        RoundSplit(g, rem, done);
        SortFailsLeftover(g, waiting, done + Elems(ready));
      }
    }
  }

  lemma LeftoverAll<T(!new)>(g: Graph<T>, rem: seq<T>, done: set<T>)
    requires RoundInvariant(g, rem, done)
    requires |rem| > 0 && |Ready(g, rem, done)| == 0
    ensures Leftover(g, rem, done) == rem
  {
  }

  lemma LeftoverRound<T(!new)>(g: Graph<T>, rem: seq<T>, done: set<T>)
    requires RoundInvariant(g, rem, done)
    requires |rem| > 0 && |Ready(g, rem, done)| > 0
    ensures RoundInvariant(g, Waiting(g, rem, done), done + Elems(Ready(g, rem, done)))
    ensures Leftover(g, rem, done) == Leftover(g, Waiting(g, rem, done), done + Elems(Ready(g, rem, done)))
  {
    RoundSplit(g, rem, done);
  }

  /** Left-over nodes are stuck. */
  lemma {:induction false} LeftoverStuck<T(!new)>(g: Graph<T>, rem: seq<T>, done: set<T>)
    requires RoundInvariant(g, rem, done) && |Leftover(g, rem, done)| > 0
    ensures Stuck(g, Elems(Leftover(g, rem, done)))
    decreases |rem|
  {
    var ready, waiting := Ready(g, rem, done), Waiting(g, rem, done);
    RoundSplit(g, rem, done);
    if |ready| == 0 {
      NoneReadyStuck(g, rem, done);
    } else {
      LeftoverStuck(g, waiting, done + Elems(ready));
    }
  }

  lemma SortStuck<T(!new)>(g: Graph<T>, rem: seq<T>, done: set<T>)
    requires RoundInvariant(g, rem, done)
    requires |rem| > 0 && |Ready(g, rem, done)| == 0
    ensures Sort(g, rem, done) == Failure(CycleError)
  {
  }

  lemma SortRound<T(!new)>(g: Graph<T>, rem: seq<T>, done: set<T>)
    requires RoundInvariant(g, rem, done)
    requires |rem| > 0 && |Ready(g, rem, done)| > 0
    ensures RoundInvariant(g, Waiting(g, rem, done), done + Elems(Ready(g, rem, done)))
    ensures var tail := Sort(g, Waiting(g, rem, done), done + Elems(Ready(g, rem, done)));
      Sort(g, rem, done) == if tail.Failure? then tail else Success(Ready(g, rem, done) + tail.value)
  {
    RoundSplit(g, rem, done);
  }

  /** How one round splits the remaining nodes; when no node is ready the
      remaining nodes are stuck. */
  lemma RoundSplit<T(!new)>(g: Graph<T>, rem: seq<T>, done: set<T>)
    requires RoundInvariant(g, rem, done)
    ensures |Ready(g, rem, done)| + |Waiting(g, rem, done)| == |rem|
    ensures Distinct(Ready(g, rem, done)) && Distinct(Waiting(g, rem, done))
    ensures Elems(Ready(g, rem, done)) + Elems(Waiting(g, rem, done)) == Elems(rem)
    ensures Elems(Ready(g, rem, done)) !! Elems(Waiting(g, rem, done))
    ensures Elems(Waiting(g, rem, done)) <= Elems(rem)
    ensures Elems(Waiting(g, rem, done)) !! done + Elems(Ready(g, rem, done))
    ensures Elems(Waiting(g, rem, done)) + (done + Elems(Ready(g, rem, done))) == g.Keys
    ensures forall x :: x in Ready(g, rem, done) ==> x in g && g[x] <= done
  {
    ReadyWaitingSizes(g, rem, done);
    var r, w := Ready(g, rem, done), Waiting(g, rem, done);
    assert Elems(r) + Elems(w) == Elems(rem);
  }

  lemma NoneReadyStuck<T(!new)>(g: Graph<T>, rem: seq<T>, done: set<T>)
    requires Closed(g)
    requires Elems(rem) + done == g.Keys
    requires |rem| > 0 && Ready(g, rem, done) == []
    ensures Stuck(g, Elems(rem))
  {
    NonEmptyElems(rem);
    assert Elems(rem) <= g.Keys;
    NoneReadyDepsInside(g, rem, done);
  }

  lemma NonEmptyElems<T>(s: seq<T>)
    requires |s| > 0
    ensures Elems(s) != {}
  {
    assert s[0] in Elems(s);
  }

  lemma NoneReadyDepsInside<T(!new)>(g: Graph<T>, rem: seq<T>, done: set<T>)
    requires Closed(g)
    requires Elems(rem) + done == g.Keys
    requires Ready(g, rem, done) == []
    ensures forall x :: x in Elems(rem) ==> g[x] * Elems(rem) != {}
  {
    NoneReady(g, rem, done);
    AllWaitingStuck(g, Elems(rem), done);
  }

  lemma AllWaitingStuck<T(!new)>(g: Graph<T>, e: set<T>, done: set<T>)
    requires Closed(g) && e + done == g.Keys
    requires forall x :: x in e ==> !(g[x] <= done)
    ensures forall x :: x in e ==> g[x] * e != {}
  {
    forall x | x in e ensures g[x] * e != {} {
      DepOutsideDone(g, e, done, x);
    }
  }

  lemma NoneReady<T(!new)>(g: Graph<T>, rem: seq<T>, done: set<T>)
    requires Elems(rem) <= g.Keys && Ready(g, rem, done) == []
    ensures forall x :: x in Elems(rem) ==> !(g[x] <= done)
  {
    forall x | x in Elems(rem) ensures !(g[x] <= done) {
      NotReady(g, rem, done, x);
    }
  }

  lemma NotReady<T(!new)>(g: Graph<T>, rem: seq<T>, done: set<T>, x: T)
    requires Elems(rem) <= g.Keys && Ready(g, rem, done) == [] && x in rem
    ensures !(g[x] <= done)
  {
    assert x !in Ready(g, rem, done);
  }

  lemma DepOutsideDone<T>(g: Graph<T>, e: set<T>, done: set<T>, x: T)
    requires Closed(g) && e + done == g.Keys && x in e && !(g[x] <= done)
    ensures g[x] * e != {}
  {
    var y :| y in g[x] && y !in done;
    assert y in g.Keys;
    assert y in g[x] * e;
  }

  /** One round followed by the rest of the sort is again a valid sort. */
  lemma RoundsCombine<T>(g: Graph<T>, done: set<T>, ready: seq<T>, tail: seq<T>)
    requires Distinct(ready) && Distinct(tail) && Elems(ready) !! Elems(tail)
    requires forall x :: x in ready ==> x in g && g[x] <= done
    requires forall i :: 0 <= i < |tail| ==> tail[i] in g && g[tail[i]] <= done + Elems(ready) + Elems(tail[..i])
    ensures Distinct(ready + tail) && Elems(ready + tail) == Elems(ready) + Elems(tail)
    ensures forall i :: 0 <= i < |ready + tail| ==>
      (ready + tail)[i] in g && g[(ready + tail)[i]] <= done + Elems((ready + tail)[..i])
  {
    var r := ready + tail;
    forall i, j | 0 <= i < j < |r| ensures r[i] != r[j] {
      if i >= |ready| {
        assert r[i] == tail[i - |ready|] && r[j] == tail[j - |ready|];
      } else if j >= |ready| {
        assert r[j] in Elems(tail);
        assert r[i] in Elems(ready);
      }
    }
    forall i | 0 <= i < |r|
      ensures r[i] in g && g[r[i]] <= done + Elems(r[..i])
    {
      if i >= |ready| {
        var k := i - |ready|;
        assert r[i] == tail[k];
        assert r[..i] == ready + tail[..k];
        assert Elems(r[..i]) == Elems(ready) + Elems(tail[..k]);
      } else {
        assert r[i] in ready;
      }
    }
  }

  /** `graphlib.TopologicalSorter(g).static_order()` for the nodes `nodes`
      of `g` listed in document order. */
  function TopoSort<T(!new)>(g: Graph<T>, nodes: seq<T>): (r: Result<seq<T>, Error>)
    requires Closed(g) && Distinct(nodes) && Elems(nodes) == g.Keys
    ensures r.Success? ==> IsOrder(g, r.value)
    ensures r.Failure? ==> r.error == CycleError && Stuck(g, Elems(Leftover(g, nodes, {})))
  {
    var r := Sort(g, nodes, {});
    if r.Success? then SortOrders(g, nodes, {}); r
    else SortFailsLeftover(g, nodes, {}); LeftoverStuck(g, nodes, {}); r
  }

  /** A graph with an order has no stuck set: the first member of any
      non-empty set of nodes, in the order, has no dependency in the set. */
  lemma OrderHasSource<T>(g: Graph<T>, order: seq<T>, s: set<T>)
    requires IsOrder(g, order) && s != {} && s <= g.Keys
    ensures exists x :: x in s && g[x] * s == {}
  {
    var x :| x in s;
    assert x in Elems(order);
    var i := FirstIn(order, s);
    assert g[order[i]] * s == {} by {
      forall y | y in g[order[i]] ensures y !in s {
        assert y in Elems(order[..i]);
        var j :| 0 <= j < i && order[..i][j] == y;
        assert order[j] == y;
      }
    }
  }

  /** The sort succeeds exactly when the graph has a topological order. */
  lemma TopoSortComplete<T(!new)>(g: Graph<T>, nodes: seq<T>)
    requires Closed(g) && Distinct(nodes) && Elems(nodes) == g.Keys
    ensures TopoSort(g, nodes).Success? <==> exists order :: IsOrder(g, order)
  {
    if order :| IsOrder(g, order) {
      if TopoSort(g, nodes).Failure? {
        OrderHasSource(g, order, Elems(Leftover(g, nodes, {})));
      }
    }
  }

  /** The restriction of `g` to the nodes in `keep`. */
  function Restrict<T>(g: Graph<T>, keep: set<T>): (r: Graph<T>)
    ensures r.Keys == g.Keys * keep
    ensures forall x :: x in r ==> r[x] == g[x] * keep
  {
    map x | x in g.Keys * keep :: g[x] * keep
  }

  /** Each node comes after its dependencies; `IsOrder` without the demand
      that every node be listed exactly once. */
  predicate DepsFirst<T>(g: Graph<T>, order: seq<T>) {
    forall i :: 0 <= i < |order| ==> order[i] in g && g[order[i]] <= Elems(order[..i])
  }

  lemma {:induction false} KeepAppend<T>(s: seq<T>, t: seq<T>, keep: set<T>)
    ensures Keep(s + t, keep) == Keep(s, keep) + Keep(t, keep)
  {
    if |s| == 0 {
      assert s + t == t;
    } else {
      assert (s + t)[1..] == s[1..] + t;
      KeepAppend(s[1..], t, keep);
    }
  }

  /** Filtering keeps dependencies first, in the graph restricted to a
      dependency-closed set. */
  lemma {:induction false} KeepDepsFirst<T>(g: Graph<T>, order: seq<T>, keep: set<T>)
    requires DepsFirst(g, order) && DepClosed(g, keep)
    ensures DepsFirst(Restrict(g, keep), Keep(order, keep))
  {
    if |order| > 0 {
      var n := |order| - 1;
      var p, x := order[..n], order[n];
      assert order == p + [x];
      assert DepsFirst(g, p) by {
        forall i | 0 <= i < |p| ensures p[i] in g && g[p[i]] <= Elems(p[..i]) {
          assert p[..i] == order[..i];
        }
      }
      KeepDepsFirst(g, p, keep);
      KeepAppend(p, [x], keep);
      var h, kp := Restrict(g, keep), Keep(p, keep);
      if x in keep {
        assert Keep([x], keep) == [x];
        var k := kp + [x];
        assert g[x] <= Elems(p);
        forall i | 0 <= i < |k| ensures k[i] in h && h[k[i]] <= Elems(k[..i]) {
          if i < |kp| {
            assert k[..i] == kp[..i];
          } else {
            assert k[..i] == kp;
          }
        }
      } else {
        assert Keep([x], keep) == [];
        assert Keep(order, keep) == kp;
      }
    }
  }

  /** Restricting a graph that has an order to a dependency-closed set keeps
      an order: the same one, filtered. */
  lemma RestrictOrder<T>(g: Graph<T>, order: seq<T>, keep: set<T>)
    requires IsOrder(g, order) && DepClosed(g, keep)
    ensures IsOrder(Restrict(g, keep), Keep(order, keep))
  {
    KeepDepsFirst(g, order, keep);
  }
}
