/** Array.prototype.sort with a comparator, as used by the system: a STABLE
    sort in ascending order of an integer key (a descending sort by `count`
    is the ascending sort by `-count`). */
module Sorting {

  /** The elements of `s` whose key is `k`, in their order in `s`. A sort is
      stable exactly when it keeps every such subsequence unchanged. */
  function WithKey<T>(s: seq<T>, key: T -> int, k: int): seq<T> {
    if s == [] then []
    else (if key(s[0]) == k then [s[0]] else []) + WithKey(s[1..], key, k)
  }

  ghost predicate SortedBy<T>(s: seq<T>, key: T -> int) {
    forall i, j :: 0 <= i < j < |s| ==> key(s[i]) <= key(s[j])
  }

  /** Puts `x` in front of the first element whose key is not below its own. */
  function Insert<T>(x: T, s: seq<T>, key: T -> int): (r: seq<T>)
    ensures |r| == |s| + 1
    ensures multiset(r) == multiset(s) + multiset{x}
  {
    if s == [] || key(x) <= key(s[0]) then [x] + s
    else
      assert s == [s[0]] + s[1..];
      [s[0]] + Insert(x, s[1..], key)
  }

  lemma SortedTail<T>(s: seq<T>, key: T -> int)
    requires s != [] && SortedBy(s, key)
    ensures SortedBy(s[1..], key)
  {
    forall i, j | 0 <= i < j < |s| - 1 ensures key(s[1..][i]) <= key(s[1..][j]) {
      assert s[1..][i] == s[i + 1] && s[1..][j] == s[j + 1];
    }
  }

  lemma SortedCons<T>(a: T, t: seq<T>, key: T -> int)
    requires SortedBy(t, key)
    requires forall i :: 0 <= i < |t| ==> key(a) <= key(t[i])
    ensures SortedBy([a] + t, key)
  {
    var r := [a] + t;
    forall i, j | 0 <= i < j < |r| ensures key(r[i]) <= key(r[j]) {
      assert r[j] == t[j - 1];
      if i > 0 { assert r[i] == t[i - 1]; }
    }
  }

  lemma {:induction false} InsertLowerBound<T>(x: T, s: seq<T>, key: T -> int, b: int)
    requires b <= key(x)
    requires forall i :: 0 <= i < |s| ==> b <= key(s[i])
    ensures forall i :: 0 <= i < |Insert(x, s, key)| ==> b <= key(Insert(x, s, key)[i])
  {
    if s == [] || key(x) <= key(s[0]) {
      var r := [x] + s;
      forall i | 0 <= i < |r| ensures b <= key(r[i]) {
        if i > 0 { assert r[i] == s[i - 1]; }
      }
    } else {
      var t := Insert(x, s[1..], key);
      InsertLowerBound(x, s[1..], key, b);
      var r := [s[0]] + t;
      forall i | 0 <= i < |r| ensures b <= key(r[i]) {
        if i > 0 { assert r[i] == t[i - 1]; }
      }
    }
  }

  lemma {:induction false} InsertSorted<T>(x: T, s: seq<T>, key: T -> int)
    requires SortedBy(s, key)
    ensures SortedBy(Insert(x, s, key), key)
  {
    if s == [] || key(x) <= key(s[0]) {
      SortedCons(x, s, key);
    } else {
      SortedTail(s, key);
      InsertSorted(x, s[1..], key);
      InsertLowerBound(x, s[1..], key, key(s[0]));
      SortedCons(s[0], Insert(x, s[1..], key), key);
    }
  }

  lemma {:induction false} InsertWithKey<T>(x: T, s: seq<T>, key: T -> int, k: int)
    requires SortedBy(s, key)
    ensures WithKey(Insert(x, s, key), key, k) == (if key(x) == k then [x] else []) + WithKey(s, key, k)
  {
    if s == [] || key(x) <= key(s[0]) {
      assert ([x] + s)[1..] == s;
    } else {
      var t := Insert(x, s[1..], key);
      var r := [s[0]] + t;
      assert Insert(x, s, key) == r;
      assert r[0] == s[0] && r[1..] == t;
      SortedTail(s, key);
      InsertWithKey(x, s[1..], key, k);
      var a := if key(s[0]) == k then [s[0]] else [];
      var b := if key(x) == k then [x] else [];
      assert WithKey(r, key, k) == a + WithKey(t, key, k);
      assert WithKey(s, key, k) == a + WithKey(s[1..], key, k);
      assert a == [] || b == [];
      assert a + (b + WithKey(s[1..], key, k)) == b + (a + WithKey(s[1..], key, k));
    }
  }

  /** Insertion sort: each element goes in front of the later elements
      with an equal key, which makes the sort stable. */
  function SortBy<T>(s: seq<T>, key: T -> int): (r: seq<T>)
    ensures |r| == |s|
    ensures multiset(r) == multiset(s)
    ensures SortedBy(r, key)
    ensures forall k {:trigger WithKey(r, key, k)} :: WithKey(r, key, k) == WithKey(s, key, k)
  {
    if s == [] then []
    else
      var t := SortBy(s[1..], key);
      assert s == [s[0]] + s[1..];
      InsertSorted(s[0], t, key);
      assert forall k {:trigger WithKey(Insert(s[0], t, key), key, k)} ::
        WithKey(Insert(s[0], t, key), key, k) == WithKey(s, key, k) by {
        forall k ensures WithKey(Insert(s[0], t, key), key, k) == WithKey(s, key, k) {
          InsertWithKey(s[0], t, key, k);
        }
      }
      Insert(s[0], t, key)
  }
  /** Ordered by `key`, and by `pos` among elements of equal key. */
  ghost predicate SortedThenBy<T>(s: seq<T>, key: T -> int, pos: T -> int) {
    forall i, j :: 0 <= i < j < |s| ==>
      key(s[i]) < key(s[j]) || (key(s[i]) == key(s[j]) && pos(s[i]) < pos(s[j]))
  }

  lemma SortedThenByTail<T>(s: seq<T>, key: T -> int, pos: T -> int)
    requires s != [] && SortedThenBy(s, key, pos)
    ensures SortedThenBy(s[1..], key, pos)
  {
    forall i, j | 0 <= i < j < |s| - 1
      ensures key(s[1..][i]) < key(s[1..][j]) || (key(s[1..][i]) == key(s[1..][j]) && pos(s[1..][i]) < pos(s[1..][j]))
    {
      assert s[1..][i] == s[i + 1] && s[1..][j] == s[j + 1];
    }
  }

  /** Inserting an element whose `pos` is below every other keeps the order
      by `key` then `pos`: it lands in front of the elements of equal key. */
  lemma {:induction false} InsertThenBy<T>(x: T, s: seq<T>, key: T -> int, pos: T -> int)
    requires SortedThenBy(s, key, pos)
    requires forall i :: 0 <= i < |s| ==> pos(x) < pos(s[i])
    ensures SortedThenBy(Insert(x, s, key), key, pos)
  {
    if s == [] || key(x) <= key(s[0]) {
      var r := [x] + s;
      forall i, j | 0 <= i < j < |r|
        ensures key(r[i]) < key(r[j]) || (key(r[i]) == key(r[j]) && pos(r[i]) < pos(r[j]))
      {
        assert r[j] == s[j - 1];
        if i > 0 {
          assert r[i] == s[i - 1];
        } else if j > 1 {
          assert key(s[0]) <= key(s[j - 1]);
        }
      }
    } else {
      SortedThenByTail(s, key, pos);
      var t := Insert(x, s[1..], key);
      InsertThenBy(x, s[1..], key, pos);
      var r := [s[0]] + t;
      forall i, j | 0 <= i < j < |r|
        ensures key(r[i]) < key(r[j]) || (key(r[i]) == key(r[j]) && pos(r[i]) < pos(r[j]))
      {
        assert r[j] == t[j - 1];
        if i == 0 {
          assert r[j] in multiset(t);
          if r[j] != x {
            assert r[j] in multiset(s[1..]);
            var k :| 0 <= k < |s[1..]| && s[1..][k] == r[j];
            assert s[1..][k] == s[k + 1];
          }
        } else {
          assert r[i] == t[i - 1];
        }
      }
    }
  }

  /** Stability stated as a tie-break: when `pos` increases along `s`, the
      sort orders elements of equal key by `pos`, that is, as in `s`. */
  lemma {:induction false} SortByThenBy<T>(s: seq<T>, key: T -> int, pos: T -> int)
    requires forall i, j :: 0 <= i < j < |s| ==> pos(s[i]) < pos(s[j])
    ensures SortedThenBy(SortBy(s, key), key, pos)
  {
    if s != [] {
      var t := SortBy(s[1..], key);
      forall i, j | 0 <= i < j < |s[1..]| ensures pos(s[1..][i]) < pos(s[1..][j]) {
        assert s[1..][i] == s[i + 1] && s[1..][j] == s[j + 1];
      }
      SortByThenBy(s[1..], key, pos);
      forall i | 0 <= i < |t| ensures pos(s[0]) < pos(t[i]) {
        assert t[i] in multiset(s[1..]);
        var k :| 0 <= k < |s[1..]| && s[1..][k] == t[i];
        assert s[1..][k] == s[k + 1];
      }
      InsertThenBy(s[0], t, key, pos);
    }
  }
}
