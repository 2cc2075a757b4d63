/** The work graph (work.py): commands to run, retried with back-off or
    not, and the scheduler of `execute`, which submits each piece of work
    once every piece it depends on has finished. */
module Works {
  import opened Wrappers
  import opened Seqs
  import opened Text
  import opened Dicts
  import Dot

  // ---------------------------------------------------------------------
  // Work

  /** `ExecuteCommand`: the argument vector and the working directory
      (`None`: the current directory when the command is made). */
  datatype Command = Command(argv: seq<string>, dir: Option<string>)

  /** The parameters of `Retry`: how often to try, and the back-off after
      the failed attempt `i` (counting from 0), which is
      `multiplier * i ** exponent + constant` seconds. */
  datatype Policy = Policy(attempts: int, exponent: nat, multiplier: int, constant: int)

  /** `Retry`'s defaults. */
  const DefaultPolicy := Policy(5, 2, 15, 5)

  datatype Action =
    | RunCommand(cmd: Command)
    | Retrying(inner: Action, policy: Policy)

  /** A `Work` object. Python compares work by identity, so each piece
      carries a serial number that tells it apart from every other. */
  datatype Work = Work(serial: nat, action: Action)

  /** `WorkGraph`: each piece of work mapped to the work that must finish
      before it can start. */
  type WorkGraph = Dict<Work, seq<Work>>

  /** `str(work)`. `join` stands for `shlex.join`. */
  function Show(a: Action, join: seq<string> -> string): string {
    match a
    case RunCommand(c) => join(c.argv)
    case Retrying(inner, p) => "Retry(attempts=" + ShowInt(p.attempts) + "): " + Show(inner, join)
  }

  /** The text of a retried action reads back: the prefix, the number of
      attempts, and the text of the action retried. */
  lemma ShowRetrying(inner: Action, p: Policy, join: seq<string> -> string)
    requires p.attempts >= 0
    ensures var s := Show(Retrying(inner, p), join); var k := |ShowNat(p.attempts)|;
      |s| >= 18 + k && s[..15] == "Retry(attempts=" && ReadNat(s[15..15 + k]) == p.attempts &&
      s[15 + k..18 + k] == "): " && s[18 + k..] == Show(inner, join)
  {
    var digits := ShowNat(p.attempts);
    var s := Show(Retrying(inner, p), join);
    assert s == "Retry(attempts=" + digits + "): " + Show(inner, join);
    assert s[15..15 + |digits|] == digits;
    ReadShowNat(p.attempts);
  }

  // ---------------------------------------------------------------------
  // `Retry.__call__`

  /** How one attempt ended: without an exception, or raising one that is
      or is not among the exceptions retried. */
  datatype Outcome = Succeeded | Raised(listed: bool)

  /** One call of a `Retry`: the attempts made, the back-offs slept between
      them, and how the call ended. */
  datatype Trial = Trial(calls: nat, waits: seq<int>, outcome: Outcome)

  function Pow(b: int, e: nat): int {
    if e == 0 then 1 else b * Pow(b, e - 1)
  }

  function Wait(p: Policy, i: nat): int {
    p.multiplier * Pow(i, p.exponent) + p.constant
  }

  /** The back-offs after the first `n` attempts. */
  function Waits(p: Policy, n: nat): (r: seq<int>)
    ensures |r| == n && forall i :: 0 <= i < n ==> r[i] == Wait(p, i)
  {
    seq(n, i requires 0 <= i < n => Wait(p, i))
  }

  /** With the defaults, the back-offs are 5, 20, 65 and 140 seconds. */
  lemma DefaultWaits()
    ensures Waits(DefaultPolicy, 4) == [5, 20, 65, 140]
  {
    assert Pow(3, 2) == 9;
  }

  /** The first attempt from `j` on, before `n`, that does not raise a
      retried exception; `n` when there is none. */
  function FirstSettled(attempt: nat -> Outcome, j: nat, n: nat): (k: nat)
    requires j <= n
    ensures j <= k <= n
    ensures forall i :: j <= i < k ==> attempt(i) == Raised(true)
    ensures k < n ==> attempt(k) != Raised(true)
    decreases n - j
  {
    if j == n || attempt(j) != Raised(true) then j else FirstSettled(attempt, j + 1, n)
  }

  /** What a `Retry` promises: with no attempts allowed it does nothing and
      succeeds; otherwise it stops at the first attempt that succeeds or
      raises an exception it does not retry, and ends as that attempt did;
      when every allowed attempt raised a retried exception it re-raises
      the last. It sleeps after each failed attempt but the last made. */
  function Expected(p: Policy, attempt: nat -> Outcome): Trial {
    if p.attempts <= 0 then Trial(0, [], Succeeded)
    else
      var k := FirstSettled(attempt, 0, p.attempts);
      if k < p.attempts then Trial(k + 1, Waits(p, k), attempt(k))
      else Trial(p.attempts, Waits(p, p.attempts - 1), Raised(true))
  }

  /** `Retry.__call__`, attempt `i` ending as `attempt(i)`. */
  method RunRetry(p: Policy, attempt: nat -> Outcome) returns (t: Trial)
    ensures t == Expected(p, attempt)
  {
    var i: nat := 0;
    var waits: seq<int> := [];
    while i < p.attempts
      invariant p.attempts > 0 ==> i < p.attempts
      invariant forall j :: 0 <= j < i ==> attempt(j) == Raised(true)
      invariant waits == Waits(p, i)
      decreases p.attempts - i
    {
      var o := attempt(i);
      if o != Raised(true) {
        // Success, or an exception that is not retried.
        return Trial(i + 1, waits, o);
      }
      if i + 1 >= p.attempts {
        // This was the last attempt.
        return Trial(i + 1, waits, o);
      }
      waits := waits + [Wait(p, i)];
      i := i + 1;
    }
    return Trial(0, [], Succeeded);
  }

  // ---------------------------------------------------------------------
  // `execute`

  /** The state of `execute`: the graph not yet scheduled, the work
      submitted and not yet finished, all work submitted so far in the
      order submitted, and the two events. In a dry run every submitted job
      prints the text of its work and succeeds. */
  datatype Run = Run(graph: WorkGraph, running: seq<Work>, submitted: seq<Work>, allDone: bool, shutdown: bool)

  function ReadySet(g: WorkGraph): set<Work> {
    set w | w in g.items && g.items[w] == []
  }

  /** The work that waits for nothing, in the order of the graph. */
  function Ready(g: WorkGraph): (r: seq<Work>)
    requires g.Valid()
    ensures Distinct(r) && |r| <= |g.keys|
    ensures forall w :: w in r <==> w in g.items && g.items[w] == []
  {
    var r := Keep(g.keys, ReadySet(g));
    assert forall w :: w in r <==> w in Elems(r);
    r
  }

  /** `queue_next_work`: unless the executor is shut down, submit all the
      work that waits for nothing and take it out of the graph. Once the
      executor is shut down the first submission raises and nothing
      changes. */
  function Schedule(s: Run): (r: Run)
    requires s.graph.Valid()
    ensures r.graph.Valid()
    ensures s.shutdown ==> r == s
    ensures !s.shutdown ==> r.submitted == s.submitted + Ready(s.graph) && r.running == s.running + Ready(s.graph)
    ensures forall w :: w in r.graph.items <==> w in s.graph.items && (s.shutdown || s.graph.items[w] != [])
    ensures forall w :: w in r.graph.items ==> r.graph.items[w] == s.graph.items[w]
    ensures !s.shutdown ==> forall w :: w in r.graph.items ==> r.graph.items[w] != []
    ensures r.allDone == s.allDone && r.shutdown == s.shutdown
  {
    if s.shutdown then s
    else
      var ready := Ready(s.graph);
      s.(graph := RemoveAll(s.graph, ReadySet(s.graph)), running := s.running + ready, submitted := s.submitted + ready)
  }

  /** The first two callbacks of a finished job: `shutdown_on_error`, which
      on failure shuts the executor down and sets `all_done`, then
      `remove_completed_work`, which drops the work from every list of
      dependencies and sets `all_done` once the graph is empty. */
  function Retire(s: Run, w: Work, ok: bool): (r: Run)
    requires s.graph.Valid() && w in s.running
    ensures r.graph.Valid() && r.graph.keys == s.graph.keys && r.submitted == s.submitted
    ensures forall k :: k in s.graph.items ==> r.graph.items[k] == RemoveFirst(s.graph.items[k], w)
    ensures r.running == RemoveFirst(s.running, w)
    ensures r.shutdown == (s.shutdown || !ok)
    ensures r.allDone == (s.allDone || !ok || |s.graph.keys| == 0)
  {
    var g := s.graph;
    var items := map k | k in g.items :: RemoveFirst(g.items[k], w);
    Run(Dict(g.keys, items), RemoveFirst(s.running, w), s.submitted, s.allDone || !ok || |g.keys| == 0, s.shutdown || !ok)
  }

  /** A job finishing, successfully or not, with all three callbacks. */
  function Complete(s: Run, w: Work, ok: bool): Run
    requires s.graph.Valid() && w in s.running
  {
    Schedule(Retire(s, w, ok))
  }

  /** The start of `execute` as written: schedule, then wait for
      `all_done`. */
  function Start(g: WorkGraph): (r: Run)
    requires g.Valid()
    ensures !r.allDone && !r.shutdown
  {
    Schedule(Run(g, [], [], false, false))
  }

  /** With nothing to do, the run as written never sets `all_done`: nothing
      is submitted, so no callback will ever set it, and `execute` waits
      forever. */
  lemma EmptyGraphHangs(g: WorkGraph)
    requires g.Valid() && |g.keys| == 0
    ensures !Start(g).allDone && Start(g).running == []
  {
    assert Ready(g) == [];
  }

  /** The start of `execute` with an empty graph treated as done. */
  function StartChecked(g: WorkGraph): (r: Run)
    requires g.Valid()
  {
    if |g.keys| == 0 then Run(g, [], [], true, false) else Start(g)
  }

  /** The checked start is the start as written except on the empty graph,
      where it is already done. */
  lemma StartCheckedAgrees(g: WorkGraph)
    requires g.Valid()
    ensures StartChecked(g) == Start(g) <==> |g.keys| > 0
    ensures |g.keys| == 0 ==> StartChecked(g).allDone && StartChecked(g).running == []
  {
    if |g.keys| == 0 {
      assert !Start(g).allDone;
    }
  }

  // ---------------------------------------------------------------------
  // What a run keeps true

  /** A graph `execute` can run to the end: every dependency is itself in
      the graph and was made before the work depending on it, and no list
      of dependencies names the same work twice (`list.remove` drops one
      occurrence only). */
  predicate Runnable(g0: WorkGraph) {
    g0.Valid() &&
    (forall k, d :: k in g0.items && d in g0.items[k] ==> d in g0.items && d.serial < k.serial) &&
    (forall k :: k in g0.items ==> Distinct(g0.items[k]))
  }

  /** The work submitted that has finished. */
  function Finished(s: Run): set<Work> {
    Elems(s.submitted) - Elems(s.running)
  }

  /** Work was submitted only after everything it depends on was. */
  predicate DepsFirst(g0: WorkGraph, sub: seq<Work>) {
    forall i, d :: 0 <= i < |sub| && sub[i] in g0.items && d in g0.items[sub[i]] ==> d in sub[..i]
  }

  predicate Fresh(s: Run) {
    s.graph.Valid() &&
    Distinct(s.submitted) && Distinct(s.running) && Elems(s.running) <= Elems(s.submitted) &&
    Elems(s.submitted) !! s.graph.items.Keys
  }

  /** The state of a run over `g0`: nothing is submitted twice, every
      piece of work is either still in the graph or submitted, what is
      left of each list of dependencies is exactly the dependencies not yet
      finished, and `all_done` is set only on failure or once the graph is
      empty. */
  predicate Tracks(g0: WorkGraph, s: Run) {
    Fresh(s) &&
    Elems(s.submitted) + s.graph.items.Keys == g0.items.Keys &&
    (forall k :: k in s.graph.items ==> Distinct(s.graph.items[k])) &&
    (forall k :: k in s.graph.items ==> Elems(s.graph.items[k]) == Elems(g0.items[k]) - Finished(s)) &&
    DepsFirst(g0, s.submitted) &&
    (s.shutdown ==> s.allDone) &&
    (s.allDone ==> |s.graph.keys| == 0 || s.shutdown)
  }

  /** Between callbacks: all work that could start has been submitted,
      and an empty graph with nothing running has set `all_done`. */
  predicate Settled(s: Run) {
    (!s.shutdown ==> forall k :: k in s.graph.items ==> s.graph.items[k] != []) &&
    (|s.graph.keys| == 0 ==> s.allDone || |s.running| > 0)
  }

  predicate Inv(g0: WorkGraph, s: Run) {
    Runnable(g0) && Tracks(g0, s) && Settled(s)
  }

  lemma ScheduleFresh(s: Run)
    requires Fresh(s)
    ensures Fresh(Schedule(s))
    ensures Finished(Schedule(s)) == Finished(s)
    ensures Elems(Schedule(s).submitted) + Schedule(s).graph.items.Keys == Elems(s.submitted) + s.graph.items.Keys
  {
    if !s.shutdown {
      var ready := Ready(s.graph);
      var r := Schedule(s);
      assert Elems(ready) <= s.graph.items.Keys;
      DistinctAppend(s.submitted, ready);
      DistinctAppend(s.running, ready);
      ElemsAppend(s.submitted, ready);
      ElemsAppend(s.running, ready);
    }
  }

  lemma ScheduleDepsFirst(g0: WorkGraph, s: Run)
    requires Runnable(g0) && Tracks(g0, s)
    ensures DepsFirst(g0, Schedule(s).submitted)
  {
    if !s.shutdown {
      var ready := Ready(s.graph);
      var sub := s.submitted + ready;
      forall i, d | 0 <= i < |sub| && sub[i] in g0.items && d in g0.items[sub[i]] ensures d in sub[..i] {
        if i < |s.submitted| {
          assert sub[i] == s.submitted[i] && sub[..i] == s.submitted[..i];
        } else {
          var k := ready[i - |s.submitted|];
          assert k == sub[i] && k in s.graph.items && s.graph.items[k] == [];
          ReadyFinished(g0, s, k);
          assert d in Elems(g0.items[k]);
          assert d in Elems(s.submitted);
          assert sub[..i] == s.submitted + ready[..i - |s.submitted|];
        }
      }
    }
  }

  /** Work that waits for nothing has seen all its dependencies finish. */
  lemma ReadyFinished(g0: WorkGraph, s: Run, k: Work)
    requires Runnable(g0) && Tracks(g0, s) && k in s.graph.items && s.graph.items[k] == []
    ensures k in g0.items && Elems(g0.items[k]) <= Finished(s)
  {
    assert k in g0.items;
    var e := Elems(g0.items[k]);
    assert Elems(s.graph.items[k]) == e - Finished(s);
    forall d | d in e ensures d in Finished(s) {
      assert d !in Elems(s.graph.items[k]);
    }
  }

  lemma ScheduleTracks(g0: WorkGraph, s: Run)
    requires Runnable(g0) && Tracks(g0, s)
    requires |s.graph.keys| == 0 ==> s.allDone || |s.running| > 0
    ensures Tracks(g0, Schedule(s)) && Settled(Schedule(s))
  {
    var r := Schedule(s);
    ScheduleFresh(s);
    ScheduleDepsFirst(g0, s);
    if !s.shutdown && |r.graph.keys| == 0 && |s.graph.keys| > 0 {
      var k := s.graph.keys[0];
      assert k in s.graph.items && k !in r.graph.items;
      assert k in Ready(s.graph);
    }
    assert |r.graph.keys| <= |s.graph.keys| by {
      if !s.shutdown {
        assert r.graph.keys == Keep(s.graph.keys, s.graph.items.Keys - ReadySet(s.graph));
      }
    }
  }

  lemma RetireTracks(g0: WorkGraph, s: Run, w: Work, ok: bool)
    requires Inv(g0, s) && w in s.running
    ensures Tracks(g0, Retire(s, w, ok))
    ensures |Retire(s, w, ok).graph.keys| == 0 ==> Retire(s, w, ok).allDone
  {
    var r := Retire(s, w, ok);
    RemoveFirstElems(s.running, w);
    assert Finished(r) == Finished(s) + {w};
    forall k | k in r.graph.items
      ensures Distinct(r.graph.items[k]) && Elems(r.graph.items[k]) == Elems(g0.items[k]) - Finished(r)
    {
      RemoveFirstElems(s.graph.items[k], w);
    }
  }

  /** A finished job keeps the state of the run. */
  lemma CompleteInv(g0: WorkGraph, s: Run, w: Work, ok: bool)
    requires Inv(g0, s) && w in s.running
    ensures Inv(g0, Complete(s, w, ok))
  {
    RetireTracks(g0, s, w, ok);
    ScheduleTracks(g0, Retire(s, w, ok));
  }

  /** A run starts in that state. */
  lemma StartInv(g0: WorkGraph)
    requires Runnable(g0)
    ensures Inv(g0, StartChecked(g0))
  {
    var s := Run(g0, [], [], false, false);
    if |g0.keys| > 0 {
      forall k | k in s.graph.items ensures Elems(s.graph.items[k]) == Elems(g0.items[k]) - Finished(s) { }
      ScheduleTracks(g0, s);
    }
  }

  /** Work with the smallest serial number. */
  lemma {:induction false} Earliest(ws: seq<Work>) returns (m: Work)
    requires |ws| > 0
    ensures m in ws && forall k :: k in ws ==> m.serial <= k.serial
  {
    if |ws| == 1 {
      m := ws[0];
    } else {
      var t := Earliest(ws[1..]);
      m := if ws[0].serial <= t.serial then ws[0] else t;
      assert forall k :: k in ws ==> k == ws[0] || k in ws[1..];
    }
  }

  /** The run never waits in vain: until `all_done` is set some job is
      running, so some callback will come. */
  lemma Progress(g0: WorkGraph, s: Run)
    requires Inv(g0, s)
    ensures s.allDone || |s.running| > 0
  {
    if !s.allDone && |s.graph.keys| > 0 {
      var k := Earliest(s.graph.keys);
      assert k in s.graph.items;
      var d := s.graph.items[k][0];
      assert d in Elems(s.graph.items[k]);
      assert d in g0.items && d.serial < k.serial;
      assert d !in s.graph.items;
      assert d in Elems(s.submitted) && d !in Finished(s);
      assert d in Elems(s.running);
    }
  }

  /** Every callback takes one piece of work closer to the end: the work
      still in the graph and the work running together shrink by one. */
  lemma CompleteShrinks(g0: WorkGraph, s: Run, w: Work, ok: bool)
    requires Inv(g0, s) && w in s.running
    ensures |Complete(s, w, ok).graph.keys| + |Complete(s, w, ok).running| < |s.graph.keys| + |s.running|
  {
    var m := Retire(s, w, ok);
    var r := Schedule(m);
    assert |m.running| == |s.running| - 1;
    if !m.shutdown {
      var n := ReadySet(m.graph);
      KeepComplement(m.graph.keys, m.graph.items.Keys - n, n);
    }
  }

  /** What `shutdown_on_error` keeps true when job `w` succeeds exactly
      when `outcome(w)`: the executor is shut down exactly when some
      finished job failed, and no work was submitted unless every piece of
      work it depends on succeeded. */
  predicate Outcomes(g0: WorkGraph, s: Run, outcome: Work -> bool) {
    (s.shutdown <==> exists w :: w in Finished(s) && !outcome(w)) &&
    forall i, d :: 0 <= i < |s.submitted| && s.submitted[i] in g0.items && d in g0.items[s.submitted[i]] ==> outcome(d)
  }

  /** A run starts with nothing finished and only work without
      dependencies submitted. */
  lemma StartOutcomes(g0: WorkGraph, outcome: Work -> bool)
    requires Runnable(g0)
    ensures Outcomes(g0, StartChecked(g0), outcome)
  {
    var s := StartChecked(g0);
    if |g0.keys| > 0 {
      assert s.submitted == s.running == Ready(g0);
      assert Finished(s) == {};
    }
  }

  /** A finished job keeps `Outcomes`: a failure shuts the executor down
      before the next scheduling round, which then submits nothing, and
      otherwise the work that becomes ready has seen all its dependencies
      succeed. */
  lemma CompleteOutcomes(g0: WorkGraph, s: Run, w: Work, outcome: Work -> bool)
    requires Inv(g0, s) && w in s.running && Outcomes(g0, s, outcome)
    ensures Outcomes(g0, Complete(s, w, outcome(w)), outcome)
  {
    var m := Retire(s, w, outcome(w));
    RetireTracks(g0, s, w, outcome(w));
    RemoveFirstElems(s.running, w);
    assert Finished(m) == Finished(s) + {w};
    assert m.shutdown <==> exists v :: v in Finished(m) && !outcome(v);
    ScheduleFresh(m);
    if !m.shutdown {
      var ready := Ready(m.graph);
      var sub := m.submitted + ready;
      forall i, d | 0 <= i < |sub| && sub[i] in g0.items && d in g0.items[sub[i]] ensures outcome(d) {
        if i < |m.submitted| {
          assert sub[i] == m.submitted[i];
        } else {
          var k := ready[i - |m.submitted|];
          assert k == sub[i] && k in m.graph.items && m.graph.items[k] == [];
          ReadyFinished(g0, m, k);
          assert d in Elems(g0.items[k]);
        }
      }
    }
  }

  /** `execute` run to the end, job `w` succeeding when `outcome(w)`, and
      jobs finishing in the order they were submitted. The run ends; no
      work is submitted twice, and none before the work it depends on; the
      executor is shut down exactly when a job failed, and no work is
      submitted after any piece of work it depends on failed; and when no
      job fails every piece of work is submitted. */
  method Execute(g: WorkGraph, outcome: Work -> bool) returns (s: Run)
    requires Runnable(g)
    ensures s.allDone && |s.running| == 0
    ensures Distinct(s.submitted) && Elems(s.submitted) <= g.items.Keys
    ensures DepsFirst(g, s.submitted)
    ensures s.shutdown <==> exists w :: w in s.submitted && !outcome(w)
    ensures forall i, d :: 0 <= i < |s.submitted| && d in g.items[s.submitted[i]] ==> outcome(d)
    ensures (forall w :: w in g.items ==> outcome(w)) ==> !s.shutdown && Elems(s.submitted) == g.items.Keys
  {
    s := StartChecked(g);
    StartInv(g);
    StartOutcomes(g, outcome);
    while |s.running| > 0
      invariant Inv(g, s)
      invariant Outcomes(g, s, outcome)
      decreases |s.graph.keys| + |s.running|
    {
      var w := s.running[0];
      assert w in Elems(s.submitted);
      CompleteInv(g, s, w, outcome(w));
      CompleteShrinks(g, s, w, outcome(w));
      CompleteOutcomes(g, s, w, outcome);
      s := Complete(s, w, outcome(w));
    }
    Progress(g, s);
    assert Finished(s) == Elems(s.submitted);
    assert forall i :: 0 <= i < |s.submitted| ==> s.submitted[i] in g.items by {
      forall i | 0 <= i < |s.submitted| ensures s.submitted[i] in g.items {
        assert s.submitted[i] in Elems(s.submitted);
      }
    }
  }

  // ---------------------------------------------------------------------
  // The dry run

  /** The work whose text the print jobs of one scheduling round show when
      they run after `queue_next_work` has returned: the lambda reads the
      loop variable `work` only when it runs, and by then the loop that
      deletes the scheduled work has left in it the last work scheduled. */
  function DryRunShowsAsWritten(g: WorkGraph): (r: seq<Work>)
    requires g.Valid()
    ensures |r| == |Ready(g)|
    ensures forall i :: 0 <= i < |r| ==> r[i] == Ready(g)[|Ready(g)| - 1]
  {
    var ready := Ready(g);
    if |ready| == 0 then [] else seq(|ready|, _ => ready[|ready| - 1])
  }

  /** Two pieces of work ready together: both print jobs show the second. */
  lemma DryRunRepeats(a: Work, b: Work)
    requires a != b
    ensures var g := Dict([a, b], map[a := [], b := []]);
      g.Valid() && Ready(g) == [a, b] && DryRunShowsAsWritten(g) == [b, b]
  {
    var g := Dict([a, b], map[a := [], b := []]);
    assert Elems(g.keys) == {a, b};
    assert ReadySet(g) == {a, b};
    assert Keep([b], {a, b}) == [b] + Keep([], {a, b});
    assert [a, b][1..] == [b];
  }

  /** The work the print jobs of one scheduling round show when each job
      keeps the work it was made for: the work submitted in that round. */
  function DryRunShows(s: Run): (r: seq<Work>)
    requires s.graph.Valid()
    ensures !s.shutdown ==> r == Ready(s.graph)
    ensures s.shutdown ==> r == []
  {
    var t := Schedule(s);
    t.submitted[|s.submitted|..]
  }

  /** The jobs as written show what they were made for exactly when at most
      one piece of work is ready; with two or more, the first job shows
      the wrong work. */
  lemma DryRunAgrees(s: Run)
    requires s.graph.Valid() && !s.shutdown
    ensures DryRunShowsAsWritten(s.graph) == DryRunShows(s) <==> |Ready(s.graph)| <= 1
  {
    var ready := Ready(s.graph);
    if |ready| >= 2 {
      assert DryRunShows(s)[0] == ready[0] != ready[|ready| - 1] == DryRunShowsAsWritten(s.graph)[0];
    } else if |ready| == 1 {
      assert DryRunShowsAsWritten(s.graph) == [ready[0]];
    }
  }

  // ---------------------------------------------------------------------
  // `graph_to_dot`

  /** A node is labelled with the text of its work, quotes escaped. */
  function Labeller(join: seq<string> -> string): Work -> string {
    (w: Work) => Escape(Show(w.action, join))
  }

  /** `graph_to_dot`: the graph written as `digraph work_graph`. */
  function GraphToDot(g: WorkGraph, join: seq<string> -> string): string
    requires g.Valid()
  {
    Dot.Render("work_graph", g, Labeller(join))
  }

  /** Read back line by line, the output opens the `work_graph` digraph,
      declares every piece of work in insertion order under a label that
      unescapes to its text, and closes the brace. */
  lemma GraphToDotNodes(g: WorkGraph, join: seq<string> -> string)
    requires g.Valid()
    requires forall w :: w in g.items ==> '\n' !in Show(w.action, join)
    requires forall w, d :: w in g.items && d in g.items[w] ==> '\n' !in Show(d.action, join)
    ensures var ls := Split(GraphToDot(g, join), '\n'); var f := Labeller(join);
      |ls| >= |g.keys| + 2 && ls[0] == "digraph work_graph {" && ls[|ls| - 1] == "}" &&
      forall i :: 0 <= i < |g.keys| ==> ls[1 + i] == Dot.NodeLine(f(g.keys[i])) && Unescape(f(g.keys[i])) == Show(g.keys[i].action, join)
  {
    var f := Labeller(join);
    LabelsFlat(g, join);
    Dot.RenderSplits("work_graph", g, f);
    Dot.LinesShape("work_graph", g, f);
    Dot.LinesNodes("work_graph", g, f);
    forall i | 0 <= i < |g.keys| ensures Unescape(f(g.keys[i])) == Show(g.keys[i].action, join) {
      EscapeRoundTrip(Show(g.keys[i].action, join));
    }
  }

  /** Read back line by line, the output holds a line for every edge. */
  lemma GraphToDotEdges(g: WorkGraph, join: seq<string> -> string)
    requires g.Valid()
    requires forall w :: w in g.items ==> '\n' !in Show(w.action, join)
    requires forall w, d :: w in g.items && d in g.items[w] ==> '\n' !in Show(d.action, join)
    ensures var ls := Split(GraphToDot(g, join), '\n'); var f := Labeller(join);
      forall w, d :: w in g.items && d in g.items[w] ==> Dot.EdgeLine(f(w), f(d)) in ls
  {
    var f := Labeller(join);
    LabelsFlat(g, join);
    Dot.RenderSplits("work_graph", g, f);
    Dot.LinesEdges("work_graph", g, f);
    var ls := Dot.Lines("work_graph", g, f);
    forall w, d | w in g.items && d in g.items[w] ensures Dot.EdgeLine(f(w), f(d)) in ls {
      assert Dot.EdgeLine(f(w), f(d)) in ls[1 + |g.keys|..|ls| - 1];
    }
  }

  lemma LabelsFlat(g: WorkGraph, join: seq<string> -> string)
    requires forall w :: w in g.items ==> '\n' !in Show(w.action, join)
    requires forall w, d :: w in g.items && d in g.items[w] ==> '\n' !in Show(d.action, join)
    ensures forall w :: w in g.items ==> '\n' !in Labeller(join)(w)
    ensures forall w, d :: w in g.items && d in g.items[w] ==> '\n' !in Labeller(join)(d)
  {
    forall w | w in g.items ensures '\n' !in Labeller(join)(w) {
      EscapeNoNewline(Show(w.action, join));
    }
    forall w, d | w in g.items && d in g.items[w] ensures '\n' !in Labeller(join)(d) {
      EscapeNoNewline(Show(d.action, join));
    }
  }

  lemma {:induction false} EscapeNoNewline(s: string)
    requires '\n' !in s
    ensures '\n' !in Escape(s)
  {
    if |s| > 0 {
      EscapeNoNewline(s[1..]);
      assert s[0] in s;
    }
  }
}
