/** The streaks of `processStats` (src/stats.ts:160-210), on day numbers:
    the longest run of consecutive active days, the days of the earliest
    such run, and the run of active days that ends today or yesterday. */
module Streaks {
  import opened OrderedMaps

  /** `ds[a..b]` holds consecutive day numbers. */
  ghost predicate Consecutive(ds: seq<int>, a: nat, b: nat)
    requires a <= b <= |ds|
  {
    forall i :: a < i < b ==> ds[i] == ds[i - 1] + 1
  }

  /** The days of `ds[a..b]`. */
  ghost function Elements(ds: seq<int>, a: nat, b: nat): set<int>
    requires a <= b <= |ds|
  {
    set i | a <= i < b :: ds[i]
  }

  /** No run of consecutive days inside `ds[..upto]` is longer than `m`,
      and none of length `m` starts before `start`. */
  ghost predicate Longest(ds: seq<int>, upto: nat, m: nat, start: nat)
    requires upto <= |ds|
  {
    forall a, b :: 0 <= a <= b <= upto && Consecutive(ds, a, b) ==> b - a <= m && (b - a == m ==> start <= a)
  }

  /** Closing the run `ds[t..i]`, which cannot be extended to the left: it
      becomes the longest run when it beats the longest one before it. */
  lemma CloseRun(ds: seq<int>, t: nat, i: nat, m: nat, start: nat)
    requires start <= t < i <= |ds|
    requires Longest(ds, t, m, start)
    requires Consecutive(ds, t, i)
    requires t == 0 || ds[t] != ds[t - 1] + 1
    ensures i - t > m ==> Longest(ds, i, i - t, t)
    ensures i - t <= m ==> Longest(ds, i, m, start)
  {
    forall a, b | 0 <= a <= b <= i && Consecutive(ds, a, b)
      ensures i - t > m ==> b - a <= i - t && (b - a == i - t ==> t <= a)
      ensures i - t <= m ==> b - a <= m && (b - a == m ==> start <= a)
    {
      if t > 0 {
        var day, before := ds[t], ds[t - 1];
      }
    }
  }

  /** A run of consecutive days holds the days `ds[a]`, `ds[a] + 1`, ... in turn. */
  lemma {:induction false} RunValues(ds: seq<int>, a: nat, b: nat)
    requires a <= b <= |ds| && Consecutive(ds, a, b)
    ensures forall k :: a <= k < b ==> ds[k] == ds[a] + (k - a)
  {
    if b > a + 1 {
      RunValues(ds, a, b - 1);
      assert ds[b - 1] == ds[b - 2] + 1;
    }
  }

  /** A run of `b - a` consecutive days holds `b - a` distinct days: the
      calendar interval starting at `ds[a]`. */
  lemma {:induction false} RunDays(ds: seq<int>, a: nat, b: nat)
    requires a <= b <= |ds| && Consecutive(ds, a, b)
    ensures |Elements(ds, a, b)| == b - a
    ensures a < b ==> forall d :: d in Elements(ds, a, b) <==> ds[a] <= d < ds[a] + (b - a)
  {
    if a < b {
      RunValues(ds, a, b);
      RunDays(ds, a, b - 1);
      var init := Elements(ds, a, b - 1);
      assert Elements(ds, a, b) == init + {ds[b - 1]};
      if a < b - 1 {
        assert ds[b - 1] !in init;
      } else {
        assert init == {};
      }
    } else {
      assert Elements(ds, a, b) == {};
    }
  }

  /** `days` are the days of the run `ds[t..i]`, which cannot be extended
      to the left. */
  ghost predicate Current(ds: seq<int>, t: nat, i: nat, days: set<int>) {
    && t < i <= |ds|
    && Consecutive(ds, t, i)
    && (t == 0 || ds[t] != ds[t - 1] + 1)
    && days == Elements(ds, t, i)
  }

  /** `days` are the days of the run `ds[start..start + m]`, the earliest
      longest run inside `ds[..t]` (or the first day, before any run closed). */
  ghost predicate Best(ds: seq<int>, t: nat, m: nat, start: nat, days: set<int>) {
    && 1 <= m && start <= t <= |ds| && start + m <= |ds|
    && Consecutive(ds, start, start + m)
    && days == Elements(ds, start, start + m)
    && Longest(ds, t, m, start)
  }

  lemma Begin(ds: seq<int>)
    requires ds != []
    ensures Current(ds, 0, 1, {ds[0]}) && Best(ds, 0, 1, 0, {ds[0]})
  {
    assert Elements(ds, 0, 1) == {ds[0]};
  }

  lemma Extend(ds: seq<int>, t: nat, i: nat, days: set<int>)
    requires Current(ds, t, i, days) && i < |ds| && ds[i] - ds[i - 1] == 1
    ensures Current(ds, t, i + 1, days + {ds[i]})
  {
    assert Elements(ds, t, i + 1) == Elements(ds, t, i) + {ds[i]};
  }

  lemma Restart(ds: seq<int>, i: nat)
    requires 0 < i < |ds| && ds[i] - ds[i - 1] != 1
    ensures Current(ds, i, i + 1, {ds[i]})
  {
    assert Elements(ds, i, i + 1) == {ds[i]};
  }

  lemma Close(ds: seq<int>, t: nat, i: nat, days: set<int>, m: nat, start: nat, best: set<int>)
    requires Current(ds, t, i, days) && Best(ds, t, m, start, best)
    ensures i - t > m ==> Best(ds, i, i - t, t, days)
    ensures i - t <= m ==> Best(ds, i, m, start, best)
  {
    CloseRun(ds, t, i, m, start);
  }

  lemma RunSize(ds: seq<int>, a: nat, b: nat)
    requires a <= b <= |ds| && Consecutive(ds, a, b)
    ensures |Elements(ds, a, b)| == b - a
  {
    RunDays(ds, a, b);
  }

  /** `maxStreak` is the length of the longest run of consecutive days in
      `ds`, and `maxStreakDays` the days of the earliest such run, which
      starts at `start`; both are empty when `ds` is. */
  ghost predicate LongestRun(ds: seq<int>, maxStreak: nat, maxStreakDays: set<int>, start: nat) {
    && (ds == [] ==> maxStreak == 0 && maxStreakDays == {})
    && (ds != [] ==> 1 <= maxStreak)
    && start + maxStreak <= |ds| && Consecutive(ds, start, start + maxStreak)
    && maxStreakDays == Elements(ds, start, start + maxStreak)
    && |maxStreakDays| == maxStreak
    && (forall a, b :: 0 <= a <= b <= |ds| && Consecutive(ds, a, b) ==>
          b - a <= maxStreak && (b - a == maxStreak ==> start <= a))
  }

  /** The streak loop over the sorted active days (ties keep the earlier run). */
  method LongestStreak(ds: seq<int>) returns (maxStreak: nat, maxStreakDays: set<int>)
    ensures exists start :: LongestRun(ds, maxStreak, maxStreakDays, start)
  {
    ghost var start := 0;
    if |ds| == 0 {
      maxStreak, maxStreakDays := 0, {};
      assert Elements(ds, 0, 0) == {};
      assert LongestRun(ds, maxStreak, maxStreakDays, start);
      return;
    }
    var tempStreak := 1;
    var tempStreakDays := {ds[0]};
    ghost var tempStart := 0;
    maxStreak, maxStreakDays := 1, {ds[0]};
    Begin(ds);
    for i := 1 to |ds|
      invariant tempStart + tempStreak == i
      invariant Current(ds, tempStart, i, tempStreakDays)
      invariant Best(ds, tempStart, maxStreak, start, maxStreakDays)
    {
      if ds[i] - ds[i - 1] == 1 {
        Extend(ds, tempStart, i, tempStreakDays);
        tempStreak := tempStreak + 1;
        tempStreakDays := tempStreakDays + {ds[i]};
      } else {
        Close(ds, tempStart, i, tempStreakDays, maxStreak, start, maxStreakDays);
        if tempStreak > maxStreak {
          maxStreak := tempStreak;
          maxStreakDays := tempStreakDays;
          start := tempStart;
        }
        Restart(ds, i);
        tempStreak := 1;
        tempStreakDays := {ds[i]};
        tempStart := i;
      }
    }
    Close(ds, tempStart, |ds|, tempStreakDays, maxStreak, start, maxStreakDays);
    if tempStreak > maxStreak {
      maxStreak := tempStreak;
      maxStreakDays := tempStreakDays;
      start := tempStart;
    }
    RunSize(ds, start, start + maxStreak);
    assert LongestRun(ds, maxStreak, maxStreakDays, start);
  }

  /** The `n` days ending at `end` are active and the day before them is not. */
  predicate RunBack(active: OrderedMap<int, nat>, end: int, n: nat) {
    && (forall d :: end - n < d <= end ==> d in active.entries)
    && end - n !in active.entries
  }

  /** Some active day lies at or below every active day. */
  function Lowest(keys: seq<int>): (lo: int)
    ensures forall i :: 0 <= i < |keys| ==> lo <= keys[i]
  {
    if keys == [] then 0
    else if |keys| == 1 then keys[0]
    else
      var rest := Lowest(keys[1..]);
      assert forall i :: 1 <= i < |keys| ==> keys[i] == keys[1..][i - 1];
      if keys[0] < rest then keys[0] else rest
  }

  /** Counts the active days going back from `end`. */
  method CountBack(active: OrderedMap<int, nat>, end: int) returns (n: nat)
    requires active.Valid()
    ensures RunBack(active, end, n)
  {
    ghost var lo := Lowest(active.keys);
    n := 0;
    while end - n in active.entries
      invariant forall d :: end - n < d <= end ==> d in active.entries
      decreases end - n - lo
    {
      var j :| 0 <= j < |active.keys| && active.keys[j] == end - n;
      n := n + 1;
    }
  }

  /** The current streak is the run of active days that ends today, or
      yesterday when today has no activity, and 0 when neither has. */
  predicate CurrentRun(active: OrderedMap<int, nat>, today: int, streak: nat) {
    && (today in active.entries ==> RunBack(active, today, streak))
    && (today !in active.entries && today - 1 in active.entries ==> RunBack(active, today - 1, streak))
    && (today !in active.entries && today - 1 !in active.entries ==> streak == 0)
  }

  method CurrentStreak(active: OrderedMap<int, nat>, today: int) returns (streak: nat)
    requires active.Valid()
    ensures CurrentRun(active, today, streak)
  {
    streak := 0;
    if today in active.entries {
      streak := CountBack(active, today);
    } else if today - 1 in active.entries {
      streak := CountBack(active, today - 1);
    }
  }
}
