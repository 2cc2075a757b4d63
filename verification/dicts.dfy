/** Python's `dict`: a finite map that remembers the order in which its keys
    were first inserted. Both the OCI graph and the work graph are dicts,
    and the order of their keys shows in everything that iterates them. */
module Dicts {
  import opened Seqs

  datatype Dict<K(==), V> = Dict(keys: seq<K>, items: map<K, V>) {
    /** The keys are listed once each, and are exactly the keys of the map. */
    predicate Valid() {
      Distinct(keys) && Elems(keys) == items.Keys
    }
  }

  function Empty<K(==), V>(): (d: Dict<K, V>)
    ensures d.Valid() && |d.keys| == 0 && d.items == map[]
  {
    Dict([], map[])
  }

  /** `d[k] = v`: a new key goes last, a key already there keeps its place;
      no other entry changes. */
  function Put<K(==), V>(d: Dict<K, V>, k: K, v: V): (r: Dict<K, V>)
    requires d.Valid()
    ensures r.Valid()
    ensures k in r.items && r.items[k] == v
    ensures forall x :: x in d.items && x != k ==> x in r.items && r.items[x] == d.items[x]
    ensures r.items.Keys == d.items.Keys + {k}
    ensures k in d.items ==> r.keys == d.keys
    ensures k !in d.items ==> r.keys == d.keys + [k]
  {
    if k in d.items then Dict(d.keys, d.items[k := v])
    else
      assert Elems(d.keys + [k]) == Elems(d.keys) + {k};
      Dict(d.keys + [k], d.items[k := v])
  }

  /** `del d[k]`: the entry goes, the others keep their order and values.
      The keys are those of `d` with `k` cut out where it stood. */
  function Remove<K(==), V>(d: Dict<K, V>, k: K): (r: Dict<K, V>)
    requires d.Valid()
    ensures r.Valid()
    ensures r.items.Keys == d.items.Keys - {k}
    ensures forall x :: x in r.items ==> r.items[x] == d.items[x]
    ensures r.keys == RemoveFirst(d.keys, k)
  {
    KeepAllBut(d.keys, k, d.items.Keys - {k});
    Dict(Keep(d.keys, d.items.Keys - {k}), d.items - {k})
  }

  /** Deleting every key of `ks`, one after another: the other entries keep
      their order and values. */
  function RemoveAll<K(==), V>(d: Dict<K, V>, ks: set<K>): (r: Dict<K, V>)
    requires d.Valid()
    ensures r.Valid()
    ensures r.items.Keys == d.items.Keys - ks
    ensures forall x :: x in r.items ==> r.items[x] == d.items[x]
    ensures r.keys == Keep(d.keys, d.items.Keys - ks)
  {
    Dict(Keep(d.keys, d.items.Keys - ks), d.items - ks)
  }

  /** `for k in ks: del d[k]`, as the scheduler removes the work it has
      just submitted. */
  function RemoveEach<K(==), V>(d: Dict<K, V>, ks: seq<K>): Dict<K, V>
    requires d.Valid()
    decreases |ks|
  {
    if |ks| == 0 then d else RemoveEach(Remove(d, ks[0]), ks[1..])
  }

  /** Removing a set of keys at once is deleting them one after another, in
      any order: each deletion cuts its key out where it stood. */
  lemma {:induction false} RemoveAllEach<K, V>(d: Dict<K, V>, ks: seq<K>)
    requires d.Valid()
    ensures RemoveAll(d, Elems(ks)) == RemoveEach(d, ks)
    decreases |ks|
  {
    if |ks| == 0 {
      assert Elems(ks) == {};
      assert d.items.Keys - {} == d.items.Keys;
      KeepAll(d.keys, d.items.Keys);
      assert d.items - {} == d.items;
      assert RemoveAll(d, {}) == Dict(d.keys, d.items);
    } else {
      var k, rest := ks[0], ks[1..];
      var e := Remove(d, k);
      RemoveAllEach(e, rest);
      assert RemoveEach(d, ks) == RemoveEach(e, rest);
      assert e == Dict(Keep(d.keys, d.items.Keys - {k}), d.items - {k});
      var gone := Elems(ks);
      assert gone == {k} + Elems(rest) by { assert ks == [k] + rest; }
      KeepKeep(d.keys, d.items.Keys - {k}, e.items.Keys - Elems(rest));
      SetsAfterTwo(d.items.Keys, k, Elems(rest), gone);
      MapsAfterTwo(d.items, k, Elems(rest), gone);
    }
  }

  lemma SetsAfterTwo<K>(a: set<K>, k: K, rest: set<K>, gone: set<K>)
    requires gone == {k} + rest
    ensures (a - {k}) * ((a - {k}) - rest) == a - gone
  {
  }

  lemma MapsAfterTwo<K, V>(m: map<K, V>, k: K, rest: set<K>, gone: set<K>)
    requires gone == {k} + rest
    ensures (m - {k}) - rest == m - gone
  {
  }
}
