/** The rankings computed after the counting pass of `processStats`
    (src/stats.ts:108-157): the top five models and languages with their
    shares, the most active day, and the busiest weekday. */
module Rankings {
  import opened Wrappers
  import opened OrderedMaps
  import opened Sorting

  /** An entry of `topModels` or `topLanguages` (`ModelStats`, `LanguageStats`). */
  datatype RankedEntry = RankedEntry(name: string, count: nat, percentage: real)

  /** `total > 0 ? (count / total) * 100 : 0`. */
  function Percentage(count: nat, total: nat): real {
    if total > 0 then (count as real / total as real) * 100.0 else 0.0
  }

  /** A share is `count` hundredths of `total`, and at most 100 when the
      count is part of the total. */
  lemma PercentageOf(count: nat, total: nat)
    ensures total > 0 ==> Percentage(count, total) * total as real == count as real * 100.0
    ensures total == 0 ==> Percentage(count, total) == 0.0
    ensures count <= total ==> 0.0 <= Percentage(count, total) <= 100.0
  {
    if total > 0 {
      var q := count as real / total as real;
      assert q * total as real == count as real;
      if count <= total {
        assert q <= 1.0;
      }
    }
  }

  /** The sort key of `(a, b) => b.count - a.count`. */
  function NegCount(e: RankedEntry): int {
    0 - e.count as int
  }

  /** `Array.from(counts.entries()).map(([name, count]) => ...)`. */
  function Ranked(counts: OrderedMap<string, nat>, total: nat): (r: seq<RankedEntry>)
    requires counts.Valid()
  {
    seq(|counts.keys|, i requires 0 <= i < |counts.keys| =>
      var name := counts.keys[i];
      RankedEntry(name, counts.entries[name], Percentage(counts.entries[name], total)))
  }

  function Min(a: int, b: int): int {
    if a < b then a else b
  }

  /** `.sort((a, b) => b.count - a.count).slice(0, 5)`. */
  function Top(counts: OrderedMap<string, nat>, total: nat): seq<RankedEntry>
    requires counts.Valid()
  {
    var sorted := SortBy(Ranked(counts, total), NegCount);
    sorted[..Min(5, |sorted|)]
  }

  /** Every ranked entry is a name of the counts with its count and share. */
  lemma RankedEntries(counts: OrderedMap<string, nat>, total: nat)
    requires counts.Valid()
    ensures forall e :: e in SortBy(Ranked(counts, total), NegCount) ==>
      e.name in counts.entries && e.count == counts.entries[e.name] && e.percentage == Percentage(e.count, total)
  {
    var ranked := Ranked(counts, total);
    var sorted := SortBy(ranked, NegCount);
    forall e | e in sorted
      ensures e.name in counts.entries && e.count == counts.entries[e.name] && e.percentage == Percentage(e.count, total)
    {
      assert e in multiset(sorted);
      assert e in ranked;
    }
  }

  /** Every name of the counts is ranked. */
  lemma NamesRanked(counts: OrderedMap<string, nat>, total: nat, k: string)
    requires counts.Valid() && k in counts.entries
    ensures exists q :: (0 <= q < |SortBy(Ranked(counts, total), NegCount)| &&
                         SortBy(Ranked(counts, total), NegCount)[q].name == k)
  {
    var ranked := Ranked(counts, total);
    var sorted := SortBy(ranked, NegCount);
    var p :| 0 <= p < |counts.keys| && counts.keys[p] == k;
    assert ranked[p] in multiset(ranked);
    assert ranked[p] in sorted;
  }

  /** The position of `name` in `keys`, or `|keys|` when it is not there. */
  function KeyIndex(keys: seq<string>, name: string): (p: nat)
    ensures p <= |keys|
    ensures p < |keys| ==> keys[p] == name
    ensures forall q :: 0 <= q < p ==> keys[q] != name
  {
    if keys == [] then 0
    else if keys[0] == name then 0
    else 1 + KeyIndex(keys[1..], name)
  }

  /** Among the sorted entries, names of equal count keep their order in
      the map. */
  lemma SortedRankedOrder(counts: OrderedMap<string, nat>, total: nat, sorted: seq<RankedEntry>)
    requires counts.Valid() && sorted == SortBy(Ranked(counts, total), NegCount)
    ensures forall i, j :: 0 <= i < j < |sorted| && sorted[i].count == sorted[j].count ==>
      KeyIndex(counts.keys, sorted[i].name) < KeyIndex(counts.keys, sorted[j].name)
  {
    var ranked := Ranked(counts, total);
    var pos := (e: RankedEntry) => KeyIndex(counts.keys, e.name);
    forall i | 0 <= i < |ranked| ensures pos(ranked[i]) == i {
      assert ranked[i].name == counts.keys[i];
    }
    SortByThenBy(ranked, NegCount, pos);
  }

  /** At most five entries, by non-increasing count, each a distinct name of
      the counts with its own count and share. Names of equal count keep
      their order in the map, as the stable sort leaves them. */
  lemma TopRanking(counts: OrderedMap<string, nat>, total: nat)
    requires counts.Valid()
    ensures var top := Top(counts, total);
      && |top| == Min(5, |counts.keys|)
      && (forall i, j :: 0 <= i < j < |top| ==> top[i].count >= top[j].count)
      && (forall i :: 0 <= i < |top| ==>
           top[i].name in counts.entries && top[i].count == counts.entries[top[i].name]
           && top[i].percentage == Percentage(top[i].count, total))
      && (forall i, j :: 0 <= i < j < |top| ==> top[i].name != top[j].name)
      && (forall i, j :: 0 <= i < j < |top| && top[i].count == top[j].count ==>
           KeyIndex(counts.keys, top[i].name) < KeyIndex(counts.keys, top[j].name))
  {
    var sorted := SortBy(Ranked(counts, total), NegCount);
    var top := Top(counts, total);
    RankedEntries(counts, total);
    SortedRankedOrder(counts, total, sorted);
    forall i | 0 <= i < |top| ensures top[i] in sorted {
      assert top[i] == sorted[i];
    }
    forall i, j | 0 <= i < j < |top|
      ensures top[i].count >= top[j].count
      ensures top[i].count == top[j].count ==>
        KeyIndex(counts.keys, top[i].name) < KeyIndex(counts.keys, top[j].name)
      ensures top[i].name != top[j].name
    {
      assert top[i] == sorted[i] && top[j] == sorted[j];
    }
  }

  /** Every name left out has no higher count than any listed one. */
  lemma TopLeavesOutLower(counts: OrderedMap<string, nat>, total: nat, k: string)
    requires counts.Valid() && k in counts.entries
    requires forall i :: 0 <= i < |Top(counts, total)| ==> Top(counts, total)[i].name != k
    ensures forall i :: 0 <= i < |Top(counts, total)| ==> counts.entries[k] <= Top(counts, total)[i].count
  {
    var sorted := SortBy(Ranked(counts, total), NegCount);
    var top := Top(counts, total);
    RankedEntries(counts, total);
    NamesRanked(counts, total, k);
    var q :| 0 <= q < |sorted| && sorted[q].name == k;
    assert sorted[q] in sorted;
    forall i | 0 <= i < |top| ensures sorted[i].name != k {
      assert top[i] == sorted[i];
    }
    assert q >= |top|;
    forall i | 0 <= i < |top| ensures counts.entries[k] <= top[i].count {
      assert top[i] == sorted[i];
      assert sorted[i] in sorted;
      assert NegCount(sorted[i]) <= NegCount(sorted[q]);
    }
  }

  /** The most active day and its count (its formatted label is left out). */
  datatype ActiveDay = ActiveDay(day: int, count: nat)

  /** `best` is the first day in map order with the largest count, and
      none exactly when there was no activity. */
  ghost predicate MostActive(daily: OrderedMap<int, nat>, best: Option<ActiveDay>)
    requires daily.Valid()
  {
    && (best.None? <==> daily.keys == [])
    && (best.Some? ==> best.value.day in daily.entries && best.value.count == daily.entries[best.value.day])
    && (best.Some? ==> forall d :: d in daily.entries ==> daily.entries[d] <= best.value.count)
    && (best.Some? ==> forall i :: 0 <= i < |daily.keys| && daily.keys[i] == best.value.day ==>
          forall j :: 0 <= j < i ==> daily.entries[daily.keys[j]] < best.value.count)
  }

  /** src/stats.ts:130-139. */
  method MostActiveDay(daily: OrderedMap<int, nat>) returns (best: Option<ActiveDay>)
    requires daily.Valid()
    ensures MostActive(daily, best)
  {
    best := None;
    ghost var at := 0;
    for i := 0 to |daily.keys|
      invariant best.None? <==> i == 0
      invariant best.Some? ==> at < i && daily.keys[at] == best.value.day && best.value.count == daily.entries[best.value.day]
      invariant best.Some? ==> forall j :: 0 <= j < i ==> daily.entries[daily.keys[j]] <= best.value.count
      invariant best.Some? ==> forall j :: 0 <= j < at ==> daily.entries[daily.keys[j]] < best.value.count
    {
      var date := daily.keys[i];
      var count := daily.entries[date];
      if best.None? || count > best.value.count {
        best := Some(ActiveDay(date, count));
        at := i;
      }
    }
    if best.Some? {
      forall d | d in daily.entries ensures daily.entries[d] <= best.value.count {
        var j :| 0 <= j < |daily.keys| && daily.keys[j] == d;
      }
    }
  }

  /** `dayNames`: 0 is Sunday. */
  const DayNames: seq<string> := ["Sun", "Mon", "Tue", "Wed", "Thu", "Fri", "Sat"]

  /** `index` is the lowest weekday with the largest count and `maxCount`
      that count; weekday 0 with count 0 when every count is 0. */
  ghost predicate WeekdayPeakOf(counts: seq<nat>, index: nat, maxCount: nat)
    requires |counts| == 7
  {
    && index < 7 && maxCount == counts[index]
    && (forall i :: 0 <= i < 7 ==> counts[i] <= maxCount)
    && (forall i :: 0 <= i < index ==> counts[i] < maxCount)
  }

  /** src/stats.ts:143-150. */
  method WeekdayPeak(counts: seq<nat>) returns (index: nat, maxCount: nat)
    requires |counts| == 7
    ensures WeekdayPeakOf(counts, index, maxCount)
  {
    maxCount, index := 0, 0;
    for i := 0 to 7
      invariant i == 0 ==> index == 0 && maxCount == 0
      invariant i > 0 ==> index < i && maxCount == counts[index]
      invariant forall j :: 0 <= j < i ==> counts[j] <= maxCount
      invariant forall j :: 0 <= j < index ==> counts[j] < maxCount
    {
      if counts[i] > maxCount {
        maxCount := counts[i];
        index := i;
      }
    }
  }
}
