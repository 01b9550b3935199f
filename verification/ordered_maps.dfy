/** JavaScript `Map`s as the system uses them: a key/value store that also
    remembers the order in which keys were first set (the order of
    `Map.prototype.entries()`, `keys()` and `values()`), and the counting
    idiom `m.set(k, (m.get(k) || 0) + 1)`. */
module OrderedMaps {
  import opened Wrappers

  datatype OrderedMap<K(==,!new), V> = OrderedMap(keys: seq<K>, entries: map<K, V>) {
    /** Keys are listed once each, and exactly the keys of `entries` are listed. */
    ghost predicate Valid() {
      && (forall i, j :: 0 <= i < j < |keys| ==> keys[i] != keys[j])
      && (forall k :: k in entries <==> k in keys)
    }

    /** `Map.prototype.get`: undefined for a missing key. */
    function Get(k: K): (r: Option<V>)
      ensures r.Some? <==> k in entries
      ensures r.Some? ==> r.value == entries[k]
    {
      if k in entries then Some(entries[k]) else None
    }

    /** `Map.prototype.set`: a new key goes to the end of the order, an
        existing key keeps its position and gets the new value. */
    function Set(k: K, v: V): (m: OrderedMap<K, V>)
      requires Valid()
      ensures m.Valid()
      ensures m.entries == entries[k := v]
      ensures k in entries ==> m.keys == keys
      ensures k !in entries ==> m.keys == keys + [k]
    {
      if k in entries then OrderedMap(keys, entries[k := v])
      else OrderedMap(keys + [k], entries[k := v])
    }

    /** `Array.from(m.values())`. */
    function Values(): (r: seq<V>)
      requires Valid()
      ensures |r| == |keys|
      ensures forall i :: 0 <= i < |keys| ==> r[i] == entries[keys[i]]
    {
      seq(|keys|, i requires 0 <= i < |keys| => entries[keys[i]])
    }
  }

  function Empty<K(==,!new), V>(): (m: OrderedMap<K, V>)
    ensures m.Valid() && m.keys == [] && m.entries == map[]
  {
    OrderedMap([], map[])
  }

  /** How often `k` occurs in `xs`. */
  function Count<K(==,!new)>(xs: seq<K>, k: K): nat {
    if xs == [] then 0
    else Count(xs[..|xs| - 1], k) + (if xs[|xs| - 1] == k then 1 else 0)
  }

  /** The distinct elements of `xs` in the order of their first occurrence. */
  function Distinct<K(==,!new)>(xs: seq<K>): seq<K> {
    if xs == [] then []
    else
      var d := Distinct(xs[..|xs| - 1]);
      if xs[|xs| - 1] in xs[..|xs| - 1] then d else d + [xs[|xs| - 1]]
  }

  lemma {:induction false} CountPositive<K(!new)>(xs: seq<K>, k: K)
    ensures Count(xs, k) > 0 <==> k in xs
  {
    if xs != [] {
      var init := xs[..|xs| - 1];
      CountPositive(init, k);
      assert xs == init + [xs[|xs| - 1]];
    }
  }

  function Sum(vs: seq<nat>): nat {
    if vs == [] then 0 else Sum(vs[..|vs| - 1]) + vs[|vs| - 1]
  }

  /** One step of the counting idiom `m.set(k, (m.get(k) || 0) + 1)`. */
  function Bump<K(==,!new)>(m: OrderedMap<K, nat>, k: K): (r: OrderedMap<K, nat>)
    requires m.Valid()
    ensures r.Valid()
  {
    m.Set(k, m.Get(k).GetOr(0) + 1)
  }

  /** The counting map obtained by bumping every element of `xs` in turn. */
  function TallyOf<K(==,!new)>(xs: seq<K>): (m: OrderedMap<K, nat>)
    ensures m.Valid()
  {
    if xs == [] then Empty() else Bump(TallyOf(xs[..|xs| - 1]), xs[|xs| - 1])
  }

  /** Bumping every element of `xs` counts each element's occurrences and
      lists the elements in the order in which they first occur. */
  lemma {:induction false} TallyOfCounts<K(!new)>(xs: seq<K>)
    ensures TallyOf(xs).keys == Distinct(xs)
    ensures forall k :: k in TallyOf(xs).entries <==> k in xs
    ensures forall k :: k in TallyOf(xs).entries ==> TallyOf(xs).entries[k] == Count(xs, k) > 0
  {
    if xs != [] {
      var init, x := xs[..|xs| - 1], xs[|xs| - 1];
      assert xs == init + [x];
      TallyOfCounts(init);
      forall k ensures k in xs <==> k in init || k == x { }
      assert xs[..|xs| - 1] == init;
      forall k | k in TallyOf(xs).entries ensures TallyOf(xs).entries[k] == Count(xs, k) > 0 {
        if k != x { assert k in init; }
        else if x !in init { CountPositive(init, x); }
      }
    }
  }

  lemma {:induction false} SumAppend(vs: seq<nat>, v: nat)
    ensures Sum(vs + [v]) == Sum(vs) + v
  {
    assert (vs + [v])[..|vs|] == vs;
  }

  lemma {:induction false} SumIncrement(vs: seq<nat>, p: nat)
    requires p < |vs|
    ensures Sum(vs[p := vs[p] + 1]) == Sum(vs) + 1
  {
    var ws := vs[p := vs[p] + 1];
    if p < |vs| - 1 {
      assert ws[..|ws| - 1] == vs[..|vs| - 1][p := vs[p] + 1];
      SumIncrement(vs[..|vs| - 1], p);
    } else {
      assert ws[..|ws| - 1] == vs[..|vs| - 1];
    }
  }

  /** One bump adds one to the sum of the counts. */
  lemma BumpSum<K(!new)>(m: OrderedMap<K, nat>, x: K)
    requires m.Valid()
    ensures Sum(Bump(m, x).Values()) == Sum(m.Values()) + 1
  {
    var r := Bump(m, x);
    var vs := m.Values();
    if x in m.entries {
      var p :| 0 <= p < |m.keys| && m.keys[p] == x;
      forall i | 0 <= i < |r.keys| ensures r.Values()[i] == vs[p := vs[p] + 1][i] {
        if i != p { assert m.keys[i] != x; }
      }
      assert r.Values() == vs[p := vs[p] + 1];
      SumIncrement(vs, p);
    } else {
      assert r.Values() == vs + [1];
      SumAppend(vs, 1);
    }
  }

  /** The counts of a counting map add up to the number of bumps. */
  lemma {:induction false} TallySum<K(!new)>(xs: seq<K>)
    ensures Sum(TallyOf(xs).Values()) == |xs|
  {
    if xs != [] {
      var init := xs[..|xs| - 1];
      TallySum(init);
      BumpSum(TallyOf(init), xs[|xs| - 1]);
    }
  }

  /** Bumping every element of `xs` in turn, starting from `m`. */
  function BumpAll<K(==,!new)>(m: OrderedMap<K, nat>, xs: seq<K>): (r: OrderedMap<K, nat>)
    requires m.Valid()
    ensures r.Valid()
  {
    if xs == [] then m else Bump(BumpAll(m, xs[..|xs| - 1]), xs[|xs| - 1])
  }

  lemma BumpAllAppend<K(!new)>(m: OrderedMap<K, nat>, xs: seq<K>, x: K)
    requires m.Valid()
    ensures BumpAll(m, xs + [x]) == Bump(BumpAll(m, xs), x)
  {
    assert (xs + [x])[..|xs|] == xs;
  }

  lemma CountAppend<K(!new)>(xs: seq<K>, x: K, k: K)
    ensures Count(xs + [x], k) == Count(xs, k) + (if x == k then 1 else 0)
  {
    assert (xs + [x])[..|xs|] == xs;
  }

  /** Counting one more element bumps its count. */
  lemma TallyAppend<K(!new)>(xs: seq<K>, x: K)
    ensures TallyOf(xs + [x]) == Bump(TallyOf(xs), x)
  {
    assert (xs + [x])[..|xs|] == xs;
  }

  lemma LastOfConcat<K>(xs: seq<K>, ys: seq<K>)
    requires ys != []
    ensures (xs + ys)[..|xs + ys| - 1] == xs + ys[..|ys| - 1]
    ensures (xs + ys)[|xs + ys| - 1] == ys[|ys| - 1]
  {
  }

  /** Counting `xs` and then `ys` is counting `xs + ys`. */
  lemma {:induction false} TallyConcat<K(!new)>(xs: seq<K>, ys: seq<K>)
    ensures TallyOf(xs + ys) == BumpAll(TallyOf(xs), ys)
  {
    if ys == [] {
      assert xs + ys == xs;
    } else {
      TallyConcat(xs, ys[..|ys| - 1]);
      LastOfConcat(xs, ys);
    }
  }
}
