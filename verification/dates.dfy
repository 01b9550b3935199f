/** The calendar helpers of src/utils/dates.ts, on local calendar dates.
    `now` is passed in as today's date. */
module Dates {
  import opened Calendar
  import opened Text

  // ---------------------------------------------------------------------
  // isWrappedAvailable

  /** The outcome of the availability check; the user-facing messages are
      left out, the number of days shown in the second one is kept. */
  datatype Availability = Available | NotStarted | NotReady(daysLeft: int)

  /** January 1 of `year` is after today exactly when `year` is after
      today's year; December 1 of this year is after today exactly when
      today is before December. */
  lemma {:induction false} StartsAfterToday(year: int, now: Date)
    requires ValidDate(now)
    ensures DaysBeforeYear(year) > DayNumber(now) <==> year > now.year
    ensures year == now.year ==>
      (DaysBeforeYear(year) + DaysBeforeMonth(year, 12) > DayNumber(now) <==> now.month < 12)
  {
    DayNumberInYear(now);
    if year > now.year { DaysBeforeYearMonotone(now.year + 1, year); }
    if year < now.year { DaysBeforeYearMonotone(year, now.year); }
    if year == now.year && now.month < 12 { DaysBeforeMonthBound(year, now.month); }
  }

  /** A year's summary can be shown once the year has begun, and for the
      current year only from December 1 on. */
  function IsWrappedAvailable(year: int, now: Date): (a: Availability)
    requires ValidDate(now)
    ensures a == NotStarted <==> year > now.year
    ensures year < now.year ==> a == Available
    ensures year == now.year ==> (a == Available <==> now.month == 12)
    ensures a.NotReady? ==> year == now.year && a.daysLeft == DayNumber(Date(year, 12, 1)) - DayNumber(now) > 0
  {
    StartsAfterToday(year, now);
    var yearStart := DayNumber(Date(year, 1, 1));
    var wrapStart := DayNumber(Date(year, 12, 1));
    if yearStart > DayNumber(now) then NotStarted
    else if year < now.year then Available
    else if wrapStart > DayNumber(now) then NotReady(wrapStart - DayNumber(now))
    else Available
  }

  // ---------------------------------------------------------------------
  // formatDateKey

  /** `String(n).padStart(2, "0")`. */
  function TwoDigits(n: nat): string {
    PadStart(NatToString(n), 2, '0')
  }

  lemma TwoDigitsValue(n: nat)
    requires n < 100
    ensures |TwoDigits(n)| == 2 && AllDigits(TwoDigits(n)) && DigitsValue(TwoDigits(n)) == n
  {
    NatToStringValue(n);
    NatToStringDigits(n);
    PadStartShape(NatToString(n), 2, '0');
    if n < 10 {
      assert TwoDigits(n) == "0" + NatToString(n);
      LeadingZeroValue(NatToString(n));
    }
  }

  /** `key` reads as `y`, a dash, two digits worth `month`, a dash and two
      digits worth `day`. */
  ghost predicate DateKeyLayout(key: string, y: string, month: int, day: int) {
    && |key| == |y| + 6
    && key[..|y|] == y && key[|y|] == '-' && key[|y| + 3] == '-'
    && AllDigits(key[|y| + 1..|y| + 3]) && DigitsValue(key[|y| + 1..|y| + 3]) == month
    && AllDigits(key[|y| + 4..]) && DigitsValue(key[|y| + 4..]) == day
  }

  lemma KeyLayout(y: string, mm: string, dd: string, month: nat, day: nat)
    requires |mm| == 2 && AllDigits(mm) && DigitsValue(mm) == month
    requires |dd| == 2 && AllDigits(dd) && DigitsValue(dd) == day
    ensures DateKeyLayout(y + "-" + mm + "-" + dd, y, month, day)
  {
    var key := y + "-" + mm + "-" + dd;
    assert key == y + (['-'] + mm + ['-'] + dd);
    assert key[|y| + 1..|y| + 3] == mm;
    assert key[|y| + 4..] == dd;
  }

  /** The local-date key `year-MM-dd`. */
  function FormatDateKey(d: Date): string
    requires ValidDate(d)
  {
    IntToString(d.year) + "-" + TwoDigits(d.month) + "-" + TwoDigits(d.day)
  }

  /** A date key is the year as `String` prints it, then the 1-based month
      and the day, each as exactly two digits. */
  lemma FormatDateKeyLayout(d: Date)
    requires ValidDate(d)
    ensures DateKeyLayout(FormatDateKey(d), IntToString(d.year), d.month, d.day)
  {
    assert d.day <= 31;
    TwoDigitsValue(d.month);
    TwoDigitsValue(d.day);
    KeyLayout(IntToString(d.year), TwoDigits(d.month), TwoDigits(d.day), d.month, d.day);
  }

  // ---------------------------------------------------------------------
  // getIntensityLevel

  /** Upper ends of the ratio bands of levels 1 to 5; level 6 is above 0.8. */
  const LevelBounds: seq<real> := [0.0, 0.1, 0.25, 0.4, 0.6, 0.8]

  /** The heat-map colour level of a day with `count` messages when the
      busiest day has `maxCount`: 0 for no activity, otherwise the band of
      `count / maxCount` among the thresholds 0.1, 0.25, 0.4, 0.6, 0.8. */
  function GetIntensityLevel(count: nat, maxCount: nat): (level: nat)
    ensures level <= 6
    ensures level == 0 <==> count == 0 || maxCount == 0
    ensures level > 0 ==> LevelBounds[level - 1] < count as real / maxCount as real
    ensures 0 < level < 6 ==> count as real / maxCount as real <= LevelBounds[level]
    ensures count == maxCount > 0 ==> level == 6
  {
    if count == 0 || maxCount == 0 then 0
    else
      var ratio := count as real / maxCount as real;
      if ratio <= 0.1 then 1
      else if ratio <= 0.25 then 2
      else if ratio <= 0.4 then 3
      else if ratio <= 0.6 then 4
      else if ratio <= 0.8 then 5
      else 6
  }

  lemma DivMonotone(a: real, b: real, m: real)
    requires a <= b && m > 0.0
    ensures a / m <= b / m
  {
    assert b / m - a / m == (b - a) / m;
  }

  /** For a fixed busiest day, more activity never gives a lighter colour. */
  lemma IntensityMonotone(c1: nat, c2: nat, maxCount: nat)
    requires c1 <= c2 && maxCount > 0
    ensures GetIntensityLevel(c1, maxCount) <= GetIntensityLevel(c2, maxCount)
  {
    var l1, l2 := GetIntensityLevel(c1, maxCount), GetIntensityLevel(c2, maxCount);
    if c1 > 0 {
      DivMonotone(c1 as real, c2 as real, maxCount as real);
    }
  }

  // ---------------------------------------------------------------------
  // generateWeeksForYear

  /** The Saturday that closes the week of day `n`. */
  function WeekEnd(n: int): int {
    n + 6 - Weekday(n)
  }

  lemma WeekEndIsSaturday(n: int)
    ensures Weekday(WeekEnd(n)) == 6
  {
    WeekdayAdd(n, 6 - Weekday(n));
  }

  /** No other day of that week is a Saturday. */
  lemma OnlySaturday(n: int, s: int)
    requires n <= s <= WeekEnd(n) && Weekday(s) == 6
    ensures s == WeekEnd(n)
  {
    WeekdayAdd(n, s - n);
  }

  /** A day that is not a Saturday is followed by the next weekday. */
  lemma WeekdayNext(n: int)
    ensures Weekday(n) != 6 ==> Weekday(n + 1) == Weekday(n) + 1
    ensures Weekday(n) == 6 ==> Weekday(n + 1) == 0
  {
    WeekdayAdd(n, 1);
  }

  /** The Sunday on or before day `n`, and the Saturday before it. */
  lemma SundayOnOrBefore(n: int)
    ensures Weekday(n - Weekday(n)) == 0
    ensures Weekday(n - Weekday(n) - 1) == 6
  {
    WeekdayAdd(n, -Weekday(n));
    WeekdayAdd(n, -Weekday(n) - 1);
  }

  /** The weeks read one after the other. */
  function Flatten(weeks: seq<seq<string>>): seq<string> {
    if weeks == [] then [] else Flatten(weeks[..|weeks| - 1]) + weeks[|weeks| - 1]
  }

  /** The position in the flattened grid at which week `w` begins. */
  function Offset(weeks: seq<seq<string>>, w: nat): nat
    requires w <= |weeks|
  {
    if w == 0 then 0 else Offset(weeks, w - 1) + |weeks[w - 1]|
  }

  lemma {:induction false} OffsetPrefix(weeks: seq<seq<string>>, m: nat, w: nat)
    requires w <= m <= |weeks|
    ensures Offset(weeks[..m], w) == Offset(weeks, w)
  {
    if w > 0 {
      OffsetPrefix(weeks, m, w - 1);
    }
  }

  lemma {:induction false} OffsetFlatten(weeks: seq<seq<string>>)
    ensures Offset(weeks, |weeks|) == |Flatten(weeks)|
  {
    if weeks != [] {
      var n := |weeks| - 1;
      OffsetFlatten(weeks[..n]);
      OffsetPrefix(weeks, n, n);
    }
  }

  lemma {:induction false} OffsetAppend(weeks: seq<seq<string>>, week: seq<string>, w: nat)
    requires w <= |weeks|
    ensures Offset(weeks + [week], w) == Offset(weeks, w)
  {
    if w > 0 {
      OffsetAppend(weeks, week, w - 1);
      assert (weeks + [week])[w - 1] == weeks[w - 1];
    }
  }

  /** The last day shown: today in the current year, December 31 otherwise. */
  function EndDate(year: int, today: Date): (end: Date)
    ensures end.year == year
  {
    if year == today.year then today else Date(year, 12, 31)
  }

  /** The grid cell for day `k` of `year` (day 0 is January 1): the day's key
      up to the end date, the empty string after it. */
  function Cell(year: int, endNum: int, k: nat): string {
    var d := DateAfter(Date(year, 1, 1), k);
    if DaysBeforeYear(year) + k <= endNum then FormatDateKey(d) else ""
  }

  /** The first `n` cells of the grid. */
  function Cells(year: int, endNum: int, n: nat): seq<string> {
    seq(n, k requires 0 <= k => Cell(year, endNum, k))
  }

  lemma CellsPrefix(year: int, endNum: int, n: nat, m: nat)
    requires m <= n
    ensures Cells(year, endNum, n)[..m] == Cells(year, endNum, m)
  {
  }

  /** A cell is empty exactly when its day lies after the end date. */
  ghost predicate KeysShape(jan1: int, endNum: int, keys: seq<string>) {
    forall k :: 0 <= k < |keys| ==> (keys[k] == "" <==> jan1 + k > endNum)
  }

  lemma CellsShape(year: int, endNum: int, n: nat)
    ensures KeysShape(DaysBeforeYear(year), endNum, Cells(year, endNum, n))
  {
  }

  function Min(a: int, b: int): int {
    if a <= b then a else b
  }

  /** How many cells the grid holds: the days of the year up to the Saturday
      that closes the week of the end date. */
  function CellTotal(year: int, endNum: int): int {
    Min(DaysInYear(year), WeekEnd(endNum) + 1 - DaysBeforeYear(year))
  }

  /** `week.some((d) => d !== "")`. */
  predicate HasDate(week: seq<string>) {
    exists i :: 0 <= i < |week| && week[i] != ""
  }

  lemma FlattenAppend(weeks: seq<seq<string>>, week: seq<string>)
    ensures Flatten(weeks + [week]) == Flatten(weeks) + week
  {
    assert (weeks + [week])[..|weeks|] == weeks;
  }

  lemma StartOfYearNumbers(year: int, s: int)
    requires 1 <= s <= 6
    ensures ValidDate(Date(year - 1, 12, 32 - s))
    ensures DayNumber(Date(year - 1, 12, 32 - s)) == DayNumber(Date(year, 1, 1)) - s
  {
    YearStep(year - 1);
    DaysBeforeMonthBound(year - 1, 12);
  }

  /** Where the walk over the grid's days stands: day number `c`, with
      `cur` in the days before January 1, or `c - jan1` days after it. */
  ghost predicate WalkDate(year: int, cur: Date, c: int) {
    var jan1 := DaysBeforeYear(year);
    && ValidDate(cur) && DayNumber(cur) == c
    && (c < jan1 ==> jan1 - c <= 6 && cur == Date(year - 1, 12, 32 - (jan1 - c)))
    && (c >= jan1 ==> cur == DateAfter(Date(year, 1, 1), c - jan1))
  }

  lemma WalkStep(year: int, cur: Date, c: int)
    requires WalkDate(year, cur, c)
    ensures WalkDate(year, NextDate(cur), c + 1)
    ensures cur.year == year <==> DaysBeforeYear(year) <= c < DaysBeforeYear(year) + DaysInYear(year)
  {
    WalkNext(year, cur, c);
    WalkYear(year, cur, c);
  }

  lemma WalkNext(year: int, cur: Date, c: int)
    requires WalkDate(year, cur, c)
    ensures WalkDate(year, NextDate(cur), c + 1)
  {
    var jan1 := DaysBeforeYear(year);
    NextDateNumber(cur);
    if c == jan1 - 1 {
      assert NextDate(cur) == Date(year, 1, 1);
    } else if c >= jan1 {
      assert NextDate(cur) == DateAfter(Date(year, 1, 1), c + 1 - jan1);
    }
  }

  lemma WalkYear(year: int, cur: Date, c: int)
    requires WalkDate(year, cur, c)
    ensures cur.year == year <==> DaysBeforeYear(year) <= c < DaysBeforeYear(year) + DaysInYear(year)
  {
    var jan1 := DaysBeforeYear(year);
    if c >= jan1 {
      YearStep(year);
      DayNumberInYear(cur);
      if c < jan1 + DaysInYear(year) { YearOfDayNumber(cur, year); }
    }
  }

  /** The walk never gets past the year after. */
  lemma WalkYearBound(year: int, cur: Date, c: int)
    requires WalkDate(year, cur, c)
    requires c <= DaysBeforeYear(year) + DaysInYear(year) + 6
    ensures cur.year <= year + 1
  {
    if cur.year > year + 1 {
      DayNumberInYear(cur);
      YearStep(year);
      YearStep(year + 1);
      DaysBeforeYearMonotone(year + 2, cur.year);
    }
  }

  /** The week being filled: no longer than the days since Sunday, empty
      up to January 1, and otherwise empty exactly after a Saturday. */
  ghost predicate WeekInv(jan1: int, day: int, week: seq<string>) {
    && |week| <= Weekday(day)
    && (day <= jan1 ==> week == [])
    && (day > jan1 ==> (week == [] <==> Weekday(day - 1) == 6))
  }

  /** The finished weeks: one to seven cells with a date first, every week
      after the first starting on a Sunday, and so does the next one. */
  ghost predicate WeeksShape(jan1: int, diy: int, weeks: seq<seq<string>>) {
    && (forall w :: 0 <= w < |weeks| ==> 1 <= |weeks[w]| <= 7 && weeks[w][0] != "")
    && (forall w :: 1 <= w < |weeks| ==> Weekday(jan1 + Offset(weeks, w)) == 0)
    && (|weeks| > 0 && |Flatten(weeks)| < diy ==> Weekday(jan1 + |Flatten(weeks)|) == 0)
  }

  /** Where the walk stands: within the days from the Sunday before
      January 1 to the day after the end date's closing Saturday. */
  ghost predicate WalkInv(year: int, endNum: int, cur: Date, week: seq<string>) {
    var jan1 := DaysBeforeYear(year);
    && jan1 <= endNum < jan1 + DaysInYear(year)
    && ValidDate(cur)
    && WalkDate(year, cur, DayNumber(cur))
    && jan1 - 6 <= DayNumber(cur) <= WeekEnd(endNum) + 1
    && WeekInv(jan1, DayNumber(cur), week)
  }

  /** What the walk has produced: `keys` holds the cells of every day of the
      year, and the finished weeks and the current one hold its first `pos`. */
  ghost predicate ContentInv(year: int, endNum: int, keys: seq<string>, day: int,
                             week: seq<string>, weeks: seq<seq<string>>, pos: int) {
    var jan1 := DaysBeforeYear(year);
    var diy := DaysInYear(year);
    && |keys| == diy && KeysShape(jan1, endNum, keys)
    && pos == (if day < jan1 then 0 else Min(day - jan1, diy))
    && Flatten(weeks) + week == keys[..pos]
    && (week != [] ==> jan1 + |Flatten(weeks)| <= endNum)
  }

  /** The state of the walk at the head of each step. */
  ghost predicate GridInv(year: int, endNum: int, keys: seq<string>, cur: Date,
                          week: seq<string>, weeks: seq<seq<string>>, pos: int) {
    && WalkInv(year, endNum, cur, week)
    && ContentInv(year, endNum, keys, DayNumber(cur), week, weeks, pos)
    && WeeksShape(DaysBeforeYear(year), DaysInYear(year), weeks)
  }

  lemma GridStart(year: int, endNum: int, keys: seq<string>, start: Date)
    requires DaysBeforeYear(year) <= endNum < DaysBeforeYear(year) + DaysInYear(year)
    requires keys == Cells(year, endNum, DaysInYear(year))
    requires var s := Weekday(DaysBeforeYear(year));
      start == if s != 0 then Date(year - 1, 12, 32 - s) else Date(year, 1, 1)
    ensures ValidDate(start)
    ensures GridInv(year, endNum, keys, start, [], [], 0)
  {
    var jan1 := DaysBeforeYear(year);
    var s := Weekday(jan1);
    if s != 0 {
      StartOfYearNumbers(year, s);
    }
    assert DayNumber(start) == jan1 - s;
    WeekEndIsSaturday(endNum);
    CellsShape(year, endNum, DaysInYear(year));
  }

  /** One day of the walk: the next date is the next day number, the walk
      stays within the closing week of the end date, the week is emptied on
      Saturday, and the walk never reaches the year after next. */
  lemma StepWalk(year: int, endNum: int, cur: Date, week: seq<string>, w1: seq<string>,
                 week2: seq<string>)
    requires WalkInv(year, endNum, cur, week)
    requires DayNumber(cur) <= endNum || |week| > 0
    requires |w1| == if cur.year == year then |week| + 1 else |week|
    requires week2 == if Weekday(DayNumber(cur)) == 6 then [] else w1
    ensures WalkInv(year, endNum, NextDate(cur), week2)
    ensures DayNumber(NextDate(cur)) == DayNumber(cur) + 1 <= WeekEnd(endNum) + 1
    ensures cur.year == year <==>
      DaysBeforeYear(year) <= DayNumber(cur) < DaysBeforeYear(year) + DaysInYear(year)
    ensures NextDate(cur).year <= year + 1
    ensures |w1| <= 7
  {
    var jan1 := DaysBeforeYear(year);
    var c := DayNumber(cur);
    WalkStep(year, cur, c);
    var next := NextDate(cur);
    assert DayNumber(next) == c + 1;
    WalkBound(jan1, endNum, c, week);
    WalkYearBound(year, next, c + 1);
    StepWeek(jan1, DaysInYear(year), endNum, c, week, w1);
    assert WeekInv(jan1, c + 1, week2);
  }

  /** A walk that goes on past the end date is still inside its closing week. */
  lemma WalkBound(jan1: int, endNum: int, day: int, week: seq<string>)
    requires WeekInv(jan1, day, week)
    requires jan1 <= endNum && day <= WeekEnd(endNum) + 1
    requires day <= endNum || |week| > 0
    ensures day <= WeekEnd(endNum)
  {
    WeekEndIsSaturday(endNum);
  }

  /** The week after one day: at most seven cells, emptied on Saturday. */
  lemma StepWeek(jan1: int, diy: int, endNum: int, day: int, week: seq<string>, w1: seq<string>)
    requires WeekInv(jan1, day, week)
    requires jan1 <= endNum < jan1 + diy
    requires day <= endNum || |week| > 0
    requires |w1| == if jan1 <= day < jan1 + diy then |week| + 1 else |week|
    ensures |w1| <= 7
    ensures Weekday(day) == 6 ==> WeekInv(jan1, day + 1, [])
    ensures Weekday(day) != 6 ==> WeekInv(jan1, day + 1, w1)
  {
    WeekdayNext(day);
  }

  /** A week that holds a cell up to the end date begins with a date. */
  lemma WeekStartsWithDate(jan1: int, endNum: int, keys: seq<string>,
                           weeks: seq<seq<string>>, w1: seq<string>, n: nat)
    requires KeysShape(jan1, endNum, keys) && n <= |keys|
    requires |w1| > 0
    requires Flatten(weeks) + w1 == keys[..n]
    requires jan1 + |Flatten(weeks)| <= endNum
    ensures w1[0] != "" && HasDate(w1)
  {
    var k := |Flatten(weeks)|;
    assert w1[0] == (Flatten(weeks) + w1)[k] == keys[k];
  }

  /** Closing a week on Saturday keeps the shape of the finished weeks. */
  lemma StepWeeks(jan1: int, diy: int, day: int, weeks: seq<seq<string>>, w1: seq<string>, n: nat)
    requires WeeksShape(jan1, diy, weeks)
    requires 1 <= |w1| <= 7 && w1[0] != ""
    requires |Flatten(weeks)| + |w1| == n <= diy
    requires Weekday(day) == 6
    requires n == diy || jan1 + n == day + 1
    ensures WeeksShape(jan1, diy, weeks + [w1])
  {
    FlattenAppend(weeks, w1);
    OffsetFlatten(weeks);
    var ws := weeks + [w1];
    forall w | 0 <= w < |ws| ensures 1 <= |ws[w]| <= 7 && ws[w][0] != "" {
      if w < |weeks| { assert ws[w] == weeks[w]; }
    }
    forall w | 1 <= w < |ws| ensures Weekday(jan1 + Offset(ws, w)) == 0 {
      OffsetAppend(weeks, w1, w);
    }
    if n < diy {
      WeekdayNext(day);
    }
  }

  /** The day's cell, when the day lies in the year, is the next cell of the grid. */
  lemma StepContent(year: int, endNum: int, keys: seq<string>, day: int, week: seq<string>,
                    weeks: seq<seq<string>>, pos: int, inYear: bool, x: string, w1: seq<string>)
    requires ContentInv(year, endNum, keys, day, week, weeks, pos)
    requires DaysBeforeYear(year) <= endNum
    requires inYear <==> DaysBeforeYear(year) <= day < DaysBeforeYear(year) + DaysInYear(year)
    requires day <= endNum || |week| > 0
    requires inYear ==> keys[pos] == x
    requires w1 == if inYear then week + [x] else week
    ensures ContentInv(year, endNum, keys, day + 1, w1, weeks, if inYear then pos + 1 else pos)
  {
    if inYear {
      assert keys[..pos + 1] == keys[..pos] + [x];
    }
  }

  /** Closing the week on Saturday: a week with a cell up to the end date
      begins with a date and is kept; an empty one is dropped. */
  lemma StepClose(year: int, endNum: int, keys: seq<string>, day: int, w1: seq<string>,
                  weeks: seq<seq<string>>, pos: int)
    requires ContentInv(year, endNum, keys, day + 1, w1, weeks, pos)
    requires WeeksShape(DaysBeforeYear(year), DaysInYear(year), weeks)
    requires Weekday(day) == 6 && |w1| <= 7
    ensures |w1| > 0 ==> HasDate(w1)
    ensures var weeks2 := if |w1| > 0 && HasDate(w1) then weeks + [w1] else weeks;
      && ContentInv(year, endNum, keys, day + 1, [], weeks2, pos)
      && WeeksShape(DaysBeforeYear(year), DaysInYear(year), weeks2)
  {
    var jan1 := DaysBeforeYear(year);
    if |w1| > 0 {
      WeekStartsWithDate(jan1, endNum, keys, weeks, w1, pos);
      StepWeeks(jan1, DaysInYear(year), day, weeks, w1, pos);
      FlattenAppend(weeks, w1);
    }
  }

  /** One day of the walk keeps GridInv: the day's cell (when the day lies
      in the year) joins the week, and a Saturday closes the week, kept only
      when it holds a date. */
  lemma GridStep(year: int, endNum: int, keys: seq<string>, cur: Date, week: seq<string>,
                 weeks: seq<seq<string>>, pos: int, x: string, w1: seq<string>,
                 week2: seq<string>, weeks2: seq<seq<string>>, pos2: int)
    requires GridInv(year, endNum, keys, cur, week, weeks, pos)
    requires DayNumber(cur) <= endNum || |week| > 0
    requires cur.year == year ==> pos < |keys| && keys[pos] == x
    requires w1 == if cur.year == year then week + [x] else week
    requires pos2 == if cur.year == year then pos + 1 else pos
    requires Weekday(DayNumber(cur)) == 6 ==>
      week2 == [] && weeks2 == if |w1| > 0 && HasDate(w1) then weeks + [w1] else weeks
    requires Weekday(DayNumber(cur)) != 6 ==> week2 == w1 && weeks2 == weeks
    ensures GridInv(year, endNum, keys, NextDate(cur), week2, weeks2, pos2)
    ensures DayNumber(NextDate(cur)) == DayNumber(cur) + 1 <= WeekEnd(endNum) + 1
    ensures NextDate(cur).year <= year + 1
  {
    var day := DayNumber(cur);
    StepWalk(year, endNum, cur, week, w1, week2);
    StepContent(year, endNum, keys, day, week, weeks, pos, cur.year == year, x, w1);
    if Weekday(day) == 6 {
      StepClose(year, endNum, keys, day, w1, weeks, pos2);
    }
  }

  /** The cell of the day the walk is on, when it lies in the year, is
      the key of that day up to the end date and empty after it. */
  lemma DayCell(year: int, endNum: int, keys: seq<string>, cur: Date, week: seq<string>, pos: int)
    requires keys == Cells(year, endNum, DaysInYear(year))
    requires WalkInv(year, endNum, cur, week)
    requires pos == (if DayNumber(cur) < DaysBeforeYear(year) then 0
                     else Min(DayNumber(cur) - DaysBeforeYear(year), DaysInYear(year)))
    ensures cur.year == year <==>
      DaysBeforeYear(year) <= DayNumber(cur) < DaysBeforeYear(year) + DaysInYear(year)
    ensures cur.year == year ==>
      pos < |keys| && keys[pos] == (if DayNumber(cur) <= endNum then FormatDateKey(cur) else "")
  {
    WalkStep(year, cur, DayNumber(cur));
    if cur.year == year {
      DateAfterNumber(Date(year, 1, 1), pos);
    }
  }

  /** When the walk stops, the finished weeks hold exactly the first
      CellTotal cells, and those cover every day up to the end date. */
  lemma GridDone(year: int, endNum: int, keys: seq<string>, cur: Date,
                 weeks: seq<seq<string>>, pos: int)
    requires keys == Cells(year, endNum, DaysInYear(year))
    requires GridInv(year, endNum, keys, cur, [], weeks, pos)
    requires DayNumber(cur) > endNum
    ensures Flatten(weeks) == Cells(year, endNum, CellTotal(year, endNum))
    ensures endNum - DaysBeforeYear(year) < CellTotal(year, endNum) <= DaysInYear(year)
    ensures WeeksShape(DaysBeforeYear(year), DaysInYear(year), weeks)
  {
    var c := DayNumber(cur);
    OnlySaturday(endNum, c - 1);
    assert pos == CellTotal(year, endNum);
    CellsPrefix(year, endNum, DaysInYear(year), pos);
  }

  /** The day-by-day walk of generateWeeksForYear: from the Sunday on or
      before January 1 until the Saturday that closes the end date's week,
      each day of the year becomes a cell (its key, or "" after the end
      date) and each Saturday closes the current week. */
  method GenerateWeeksForYear(year: int, today: Date) returns (weeks: seq<seq<string>>)
    requires ValidDate(today)
    ensures var endNum := DayNumber(EndDate(year, today));
      Flatten(weeks) == Cells(year, endNum, CellTotal(year, endNum))
    ensures var endNum := DayNumber(EndDate(year, today));
      endNum - DaysBeforeYear(year) < CellTotal(year, endNum) <= DaysInYear(year)
    ensures WeeksShape(DaysBeforeYear(year), DaysInYear(year), weeks)
  {
    var startDate := Date(year, 1, 1);
    var startDay := Weekday(DayNumber(startDate));
    var adjustedStart := startDate;
    if startDay != 0 {
      // setDate(1 - startDay) steps back into the previous December
      adjustedStart := Date(year - 1, 12, 32 - startDay);
    }
    var endDate := EndDate(year, today);
    DayNumberInYear(endDate);
    YearStep(year);
    var endNum := DayNumber(endDate);
    ghost var keys := Cells(year, endNum, DaysInYear(year));
    GridStart(year, endNum, keys, adjustedStart);

    var currentDate := adjustedStart;
    var currentWeek: seq<string> := [];
    weeks := [];
    ghost var pos := 0;

    while DayNumber(currentDate) <= endNum || |currentWeek| > 0
      invariant GridInv(year, endNum, keys, currentDate, currentWeek, weeks, pos)
      decreases WeekEnd(endNum) + 1 - DayNumber(currentDate)
    {
      ghost var week0, weeks0 := currentWeek, weeks;
      var dayOfWeek := Weekday(DayNumber(currentDate));
      var dateStr := FormatDateKey(currentDate);
      DayCell(year, endNum, keys, currentDate, currentWeek, pos);

      if currentDate.year == year && DayNumber(currentDate) <= endNum {
        currentWeek := currentWeek + [dateStr];
      } else if currentDate.year == year {
        currentWeek := currentWeek + [""];
      }
      ghost var w1 := currentWeek;

      if dayOfWeek == 6 {
        if |currentWeek| > 0 && HasDate(currentWeek) {
          weeks := weeks + [currentWeek];
        }
        currentWeek := [];
      }

      ghost var pos2 := if currentDate.year == year then pos + 1 else pos;
      GridStep(year, endNum, keys, currentDate, week0, weeks0, pos,
               if DayNumber(currentDate) <= endNum then dateStr else "", w1,
               currentWeek, weeks, pos2);
      pos := pos2;
      currentDate := NextDate(currentDate);
      if currentDate.year > year + 1 {
        break;
      }
    }
    GridDone(year, endNum, keys, currentDate, weeks, pos);

    if |currentWeek| > 0 && HasDate(currentWeek) {
      weeks := weeks + [currentWeek];
    }
  }
}
