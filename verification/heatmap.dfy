/** The computations of the activity heat map (src/image/heatmap.tsx): the
    largest daily count, the count shown in a day's cell, and the month
    labels above the week columns. The grid is the one built by
    `generateWeeksForYear`, whose cells are date keys or "" for the days
    after the end date. */
module Heatmap {
  import opened Wrappers
  import opened OrderedMaps
  import opened Calendar
  import opened Text
  import opened Dates

  // ---------------------------------------------------------------------
  // Counts

  /** `Math.max(...counts)`, and 0 for no counts. */
  function MaxOf(counts: seq<nat>): (m: nat)
    ensures forall i :: 0 <= i < |counts| ==> counts[i] <= m
    ensures counts == [] ==> m == 0
    ensures counts != [] ==> exists i :: 0 <= i < |counts| && counts[i] == m
  {
    if counts == [] then 0
    else
      var rest := MaxOf(counts[..|counts| - 1]);
      var last := counts[|counts| - 1];
      if |counts| > 1 && rest >= last then rest else last
  }

  /** `maxCount`: the largest count of any day, 0 when no day is active. */
  function MaxCount(dailyActivity: OrderedMap<string, nat>): nat
    requires dailyActivity.Valid()
  {
    MaxOf(dailyActivity.Values())
  }

  /** `dateStr ? dailyActivity.get(dateStr) || 0 : 0`: the count of an
      empty cell or of a day without activity is 0. */
  function CellCount(dateStr: string, dailyActivity: OrderedMap<string, nat>): (count: nat)
    ensures dateStr != "" && dateStr in dailyActivity.entries ==> count == dailyActivity.entries[dateStr]
    ensures dateStr == "" || dateStr !in dailyActivity.entries ==> count == 0
  {
    if dateStr != "" then dailyActivity.Get(dateStr).GetOr(0) else 0
  }

  /** The largest count is the count of some active day and no cell shows
      more, so the busiest day is drawn at the darkest level and every
      other cell at a level between 0 and 6. */
  lemma MaxCountBounds(dailyActivity: OrderedMap<string, nat>, dateStr: string)
    requires dailyActivity.Valid()
    ensures CellCount(dateStr, dailyActivity) <= MaxCount(dailyActivity)
    ensures dailyActivity.keys == [] ==> MaxCount(dailyActivity) == 0
    ensures dailyActivity.keys != [] ==>
      exists d :: d in dailyActivity.entries && dailyActivity.entries[d] == MaxCount(dailyActivity)
    ensures (dateStr != "" && dateStr in dailyActivity.entries
             && CellCount(dateStr, dailyActivity) == MaxCount(dailyActivity) > 0) ==>
      GetIntensityLevel(CellCount(dateStr, dailyActivity), MaxCount(dailyActivity)) == 6
  {
    var vs := dailyActivity.Values();
    if dateStr != "" && dateStr in dailyActivity.entries {
      var i :| 0 <= i < |dailyActivity.keys| && dailyActivity.keys[i] == dateStr;
      assert vs[i] == dailyActivity.entries[dateStr];
    }
    if dailyActivity.keys != [] {
      var i :| 0 <= i < |vs| && vs[i] == MaxCount(dailyActivity);
      assert dailyActivity.keys[i] in dailyActivity.entries;
    }
  }

  // ---------------------------------------------------------------------
  // Month labels

  /** A label: the 0-based month and the horizontal offset of its week
      column. `None` stands for `NaN`, the month of a key whose second
      dash-separated part does not start with a number. */
  datatype MonthLabel = MonthLabel(month: Option<int>, x: int)

  /** `parseInt(dateStr.split("-")[1], 10) - 1`: without a second part the
      argument is `undefined`, which parses as `NaN`. */
  function MonthOf(dateStr: string): Option<int> {
    var parts := Split(dateStr, '-');
    if |parts| < 2 then None
    else
      match ParseInt(parts[1])
      case None => None
      case Some(n) => Some(n - 1)
  }

  /** `month !== lastMonth`: `NaN` differs from every number, itself included. */
  predicate Differs(month: Option<int>, lastMonth: Option<int>) {
    !(month.Some? && lastMonth.Some? && month.value == lastMonth.value)
  }

  /** The first date of a week: its first non-empty cell, if any. */
  function FirstDate(week: seq<string>): (r: Option<string>)
    ensures r.Some? <==> HasDate(week)
    ensures r.Some? ==> r.value != ""
  {
    if week == [] then None
    else if week[0] != "" then Some(week[0])
    else
      assert forall i :: 1 <= i < |week| ==> week[i] == week[1..][i - 1];
      assert HasDate(week[1..]) ==> HasDate(week) by {
        if HasDate(week[1..]) {
          var i :| 0 <= i < |week[1..]| && week[1..][i] != "";
          assert week[i + 1] != "";
        }
      }
      FirstDate(week[1..])
  }

  /** What the label loop reads from a week: nothing for a week without a
      date, otherwise the month of its first date. */
  datatype WeekHead = Blank | Dated(month: Option<int>)

  function HeadOf(week: seq<string>): (h: WeekHead)
    ensures h.Dated? <==> HasDate(week)
  {
    match FirstDate(week)
    case None => Blank
    case Some(dateStr) => Dated(MonthOf(dateStr))
  }

  /** The heads of all weeks. */
  function Heads(weeks: seq<seq<string>>): (heads: seq<WeekHead>)
    ensures |heads| == |weeks|
    ensures forall w :: 0 <= w < |weeks| ==> heads[w] == HeadOf(weeks[w])
  {
    seq(|weeks|, w requires 0 <= w < |weeks| => HeadOf(weeks[w]))
  }

  /** `ws` lists weeks with a date. */
  ghost predicate DatedWeeks(heads: seq<WeekHead>, ws: seq<nat>) {
    forall i :: 0 <= i < |ws| ==> ws[i] < |heads| && heads[ws[i]].Dated?
  }

  /** `lastMonth` after labelling the weeks `ws`: -1 before the first label. */
  function LastMonth(heads: seq<WeekHead>, ws: seq<nat>): Option<int>
    requires DatedWeeks(heads, ws)
  {
    if ws == [] then Some(-1) else heads[ws[|ws| - 1]].month
  }

  /** Whether the week `n` gets a label after the weeks `ws` got theirs. */
  predicate Labels(heads: seq<WeekHead>, ws: seq<nat>, n: nat)
    requires DatedWeeks(heads, ws) && n < |heads|
  {
    heads[n].Dated? && Differs(heads[n].month, LastMonth(heads, ws))
  }

  /** The weeks that get a label, in order: a week with a date gets one when
      its month differs from the month of the last label. Each week
      contributes at most one label and weeks without a date none. */
  function LabelWeeks(heads: seq<WeekHead>): (ws: seq<nat>)
    ensures DatedWeeks(heads, ws)
    ensures forall i, j :: 0 <= i < j < |ws| ==> ws[i] < ws[j]
  {
    if heads == [] then []
    else
      var n := |heads| - 1;
      var prev := LabelWeeks(heads[..n]);
      assert forall i :: 0 <= i < |prev| ==> heads[..n][prev[i]] == heads[prev[i]];
      if Labels(heads, prev, n) then prev + [n] else prev
  }

  /** The labels of the weeks `ws`: the week's month at its column's offset. */
  function LabelsAt(heads: seq<WeekHead>, ws: seq<nat>, cellSize: int, gap: int): (labels: seq<MonthLabel>)
    requires DatedWeeks(heads, ws)
    ensures |labels| == |ws|
    ensures forall i :: 0 <= i < |ws| ==>
      labels[i] == MonthLabel(heads[ws[i]].month, ws[i] * (cellSize + gap))
  {
    seq(|ws|, i requires 0 <= i < |ws| => MonthLabel(heads[ws[i]].month, ws[i] * (cellSize + gap)))
  }

  /** Labelling the week `n` after the weeks `ws`. */
  lemma LabelsAtAppend(heads: seq<WeekHead>, ws: seq<nat>, n: nat, cellSize: int, gap: int)
    requires DatedWeeks(heads, ws) && n < |heads| && heads[n].Dated?
    ensures DatedWeeks(heads, ws + [n])
    ensures LabelsAt(heads, ws + [n], cellSize, gap) ==
      LabelsAt(heads, ws, cellSize, gap) + [MonthLabel(heads[n].month, n * (cellSize + gap))]
  {
  }

  /** Labelling more weeks keeps the labels of the earlier ones. */
  lemma LabelWeeksPrefix(heads: seq<WeekHead>, n: nat)
    requires n < |heads|
    ensures var prev := LabelWeeks(heads[..n]);
      DatedWeeks(heads, prev) &&
      LabelWeeks(heads[..n + 1]) == if Labels(heads, prev, n) then prev + [n] else prev
  {
    assert heads[..n + 1][..n] == heads[..n];
    var prev := LabelWeeks(heads[..n]);
    assert forall i :: 0 <= i < |prev| ==> heads[..n + 1][prev[i]] == heads[prev[i]];
  }

  /** The labels and `lastMonth` after reading the first `n` weeks. */
  ghost predicate Labelled(heads: seq<WeekHead>, n: nat, ws: seq<nat>, labels: seq<MonthLabel>,
                           lastMonth: Option<int>, cellSize: int, gap: int)
    requires n <= |heads|
  {
    && ws == LabelWeeks(heads[..n])
    && DatedWeeks(heads, ws)
    && labels == LabelsAt(heads, ws, cellSize, gap)
    && lastMonth == LastMonth(heads, ws)
  }

  /** Reading a week whose head is `head`: a week with a date whose month
      differs from `lastMonth` adds its label at week `n`, any other week
      changes nothing. */
  ghost predicate Turn(head: WeekHead, n: nat, cellSize: int, gap: int,
                       ws: seq<nat>, labels: seq<MonthLabel>, lastMonth: Option<int>,
                       ws': seq<nat>, labels': seq<MonthLabel>, lastMonth': Option<int>)
  {
    if head.Dated? && Differs(head.month, lastMonth) then
      ws' == ws + [n] && labels' == labels + [MonthLabel(head.month, n * (cellSize + gap))]
      && lastMonth' == head.month
    else
      ws' == ws && labels' == labels && lastMonth' == lastMonth
  }

  lemma LabelStep(heads: seq<WeekHead>, n: nat, ws: seq<nat>, labels: seq<MonthLabel>, lastMonth: Option<int>,
                  ws': seq<nat>, labels': seq<MonthLabel>, lastMonth': Option<int>, cellSize: int, gap: int)
    requires n < |heads| && Labelled(heads, n, ws, labels, lastMonth, cellSize, gap)
    requires Turn(heads[n], n, cellSize, gap, ws, labels, lastMonth, ws', labels', lastMonth')
    ensures Labelled(heads, n + 1, ws', labels', lastMonth', cellSize, gap)
  {
    LabelWeeksPrefix(heads, n);
    if Labels(heads, ws, n) {
      LabelsAtAppend(heads, ws, n, cellSize, gap);
      assert LastMonth(heads, ws') == heads[n].month;
    }
  }

  /** `getMonthLabels` (src/image/heatmap.tsx:209-233). */
  method GetMonthLabels(weeks: seq<seq<string>>, cellSize: int, gap: int) returns (labels: seq<MonthLabel>)
    ensures labels == LabelsAt(Heads(weeks), LabelWeeks(Heads(weeks)), cellSize, gap)
  {
    ghost var heads := Heads(weeks);
    labels := [];
    ghost var ws: seq<nat> := [];
    var lastMonth := Some(-1);
    for weekIndex: nat := 0 to |weeks|
      invariant Labelled(heads, weekIndex, ws, labels, lastMonth, cellSize, gap)
    {
      ghost var ws0, labels0, lastMonth0 := ws, labels, lastMonth;
      ghost var head := Blank;
      var week := weeks[weekIndex];
      var j := 0;
      while j < |week|
        invariant j <= |week|
        invariant FirstDate(week[j..]) == FirstDate(week)
        invariant head == Blank && ws == ws0 && labels == labels0 && lastMonth == lastMonth0
      {
        var dateStr := week[j];
        if dateStr != "" {
          var month := MonthOf(dateStr);
          head := Dated(month);
          if month.None? || lastMonth.None? || month.value != lastMonth.value {
            labels := labels + [MonthLabel(month, weekIndex * (cellSize + gap))];
            lastMonth := month;
            ws := ws + [weekIndex];
          }
          break;
        }
        assert week[j..][1..] == week[j + 1..];
        j := j + 1;
      }
      assert Turn(head, weekIndex, cellSize, gap, ws0, labels0, lastMonth0, ws, labels, lastMonth);
      assert heads[weekIndex] == head;
      LabelStep(heads, weekIndex, ws0, labels0, lastMonth0, ws, labels, lastMonth, cellSize, gap);
    }
    assert heads[..|weeks|] == heads;
  }

  // ---------------------------------------------------------------------
  // Properties of the labels

  /** No two consecutive labels share a month, and the first label's month
      is not -1. */
  lemma {:induction false} LabelMonthsChange(heads: seq<WeekHead>)
    ensures var ws := LabelWeeks(heads);
      && (ws != [] ==> Differs(heads[ws[0]].month, Some(-1)))
      && (forall i :: 0 < i < |ws| ==> Differs(heads[ws[i]].month, heads[ws[i - 1]].month))
  {
    if heads != [] {
      var n := |heads| - 1;
      var init := heads[..n];
      LabelMonthsChange(init);
      var prev := LabelWeeks(init);
      assert forall i :: 0 <= i < |prev| ==> init[prev[i]] == heads[prev[i]];
    }
  }

  /** Reading one more week adds at most its own label. */
  lemma LabelWeeksGrow(heads: seq<WeekHead>)
    requires heads != []
    ensures var n := |heads| - 1; var prev := LabelWeeks(heads[..n]);
      LabelWeeks(heads) == prev || LabelWeeks(heads) == prev + [n]
  {
    var n := |heads| - 1;
    LabelWeeksPrefix(heads, n);
    assert heads[..n + 1] == heads;
  }

  /** The labels of the weeks before `w` are the first labels, and the
      labels after them belong to week `w` or later. */
  lemma {:induction false} LabelsBefore(heads: seq<WeekHead>, w: nat)
    requires w <= |heads|
    ensures var ws := LabelWeeks(heads); var before := LabelWeeks(heads[..w]);
      && |before| <= |ws| && before == ws[..|before|]
      && (forall i :: |before| <= i < |ws| ==> w <= ws[i])
  {
    if w < |heads| {
      var n := |heads| - 1;
      var init := heads[..n];
      assert init[..w] == heads[..w];
      LabelsBefore(init, w);
      LabelWeeksGrow(heads);
      var ws, prev, before := LabelWeeks(heads), LabelWeeks(init), LabelWeeks(heads[..w]);
      if ws != prev {
        assert ws == prev + [n];
        assert ws[..|before|] == prev[..|before|];
      }
    } else {
      assert heads[..w] == heads;
    }
  }

  /** A week with a date is labelled exactly when its month differs from
      the month of the last label before it (-1 when there is none): a
      week left without a label repeats that month. */
  lemma LabelledIff(heads: seq<WeekHead>, w: nat)
    requires w < |heads| && heads[w].Dated?
    ensures var before := LabelWeeks(heads[..w]);
      DatedWeeks(heads, before) &&
      (w in LabelWeeks(heads) <==> Differs(heads[w].month, LastMonth(heads, before)))
  {
    var ws := LabelWeeks(heads);
    var before := LabelWeeks(heads[..w]);
    var after := LabelWeeks(heads[..w + 1]);
    LabelsBefore(heads, w);
    LabelsBefore(heads, w + 1);
    LabelWeeksPrefix(heads, w);
    var labelled := Labels(heads, before, w);
    assert labelled ==> after == before + [w];
    assert !labelled ==> after == before;
    assert forall i :: 0 <= i < |before| ==> ws[i] == before[i] < w;
    if w in ws {
      var i :| 0 <= i < |ws| && ws[i] == w;
      assert |before| <= i < |after|;
    }
    if labelled {
      assert ws[|before|] == after[|before|] == w;
    }
  }

  /** The first week with a date gets the first label unless its month
      reads as -1 (a month part of "00"), the only value equal to the
      initial `lastMonth`. */
  lemma FirstDatedWeekLabelled(heads: seq<WeekHead>, w: nat)
    requires w < |heads| && heads[w].Dated?
    requires forall v :: 0 <= v < w ==> heads[v].Blank?
    ensures var ws := LabelWeeks(heads);
      (ws != [] && ws[0] == w) <==> heads[w].month != Some(-1)
  {
    var ws := LabelWeeks(heads);
    LabelsBefore(heads, w);
    LabelledIff(heads, w);
    if ws != [] && ws[0] == w {
      assert w in ws;
    }
    if heads[w].month != Some(-1) {
      var i :| 0 <= i < |ws| && ws[i] == w;
      assert ws[0] <= ws[i] && heads[ws[0]].Dated?;
    }
  }

  /** Labels are placed left to right: with a positive column pitch each
      label's offset is larger than the one before. */
  lemma LabelsLeftToRight(heads: seq<WeekHead>, cellSize: int, gap: int)
    requires cellSize + gap > 0
    ensures var labels := LabelsAt(heads, LabelWeeks(heads), cellSize, gap);
      forall i, j :: 0 <= i < j < |labels| ==> labels[i].x < labels[j].x
  {
    var ws := LabelWeeks(heads);
    var labels := LabelsAt(heads, ws, cellSize, gap);
    forall i, j | 0 <= i < j < |labels| ensures labels[i].x < labels[j].x {
      assert ws[i] < ws[j];
      MulStrict(ws[i], ws[j], cellSize + gap);
    }
  }

  lemma MulStrict(a: int, b: int, k: int)
    requires a < b && k > 0
    ensures a * k < b * k
  {
  }

  // ---------------------------------------------------------------------
  // Reading the month back from a date key

  lemma NoDash(s: string)
    requires AllDigits(s)
    ensures '-' !in s
  {
    forall i | 0 <= i < |s| ensures s[i] != '-' {
      assert IsDigit(s[i]);
    }
  }

  /** The month read back from a date key of a year from 0 on is the
      0-based month of the date the key was made from. */
  lemma MonthOfDateKey(d: Date)
    requires ValidDate(d) && d.year >= 0
    ensures MonthOf(FormatDateKey(d)) == Some(d.month - 1)
  {
    var y, mm, dd := IntToString(d.year), TwoDigits(d.month), TwoDigits(d.day);
    assert d.day <= 31;
    NatToStringDigits(d.year);
    assert y == NatToString(d.year);
    TwoDigitsValue(d.month);
    TwoDigitsValue(d.day);
    NoDash(y);
    NoDash(mm);
    var key := FormatDateKey(d);
    assert key == y + ['-'] + (mm + ['-'] + dd);
    SplitFirst(y, '-', mm + ['-'] + dd);
    SplitFirst(mm, '-', dd);
    var parts := Split(key, '-');
    assert parts[1] == mm;
    LeadingDigitsOfDigits(mm, []);
    assert mm + [] == mm;
    assert mm[0] != '-' && mm[0] != '+' by { assert IsDigit(mm[0]); }
  }
}
