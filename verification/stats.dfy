/** `processStats` (src/stats.ts:25-240): one pass over the sessions and
    their messages that counts activity, tokens, cost, models and
    languages, then the rankings, the busiest weekday and the streaks. */
module Stats {
  import opened Wrappers
  import opened OrderedMaps
  import opened Calendar
  import opened Pricing
  import opened Sessions
  import opened Languages
  import opened Tallies
  import opened Sorting
  import opened Rankings
  import opened Streaks

  /** `WeekdayActivity`. */
  datatype WeekdayActivity = WeekdayActivity(
    counts: seq<nat>, mostActiveDay: nat, mostActiveDayName: string, maxCount: nat)

  /** `GeminiStats`; dates of activity are day numbers. */
  datatype GeminiStats = GeminiStats(
    year: int, periodLabel: string, startDate: Date, endDate: Date,
    firstSessionDay: Option<int>, daysSinceFirstSession: int,
    totalSessions: nat, totalMessages: nat, totalProjects: nat,
    totalInputTokens: nat, totalOutputTokens: nat, totalCachedTokens: nat,
    totalThoughtTokens: nat, totalTokens: nat,
    totalCost: real, hasUsageCost: bool,
    totalToolCalls: nat,
    topModels: seq<RankedEntry>, topLanguages: seq<RankedEntry>,
    dailyActivity: OrderedMap<int, nat>, mostActiveDay: Option<ActiveDay>,
    weekdayActivity: WeekdayActivity,
    maxStreak: nat, currentStreak: nat, maxStreakDays: set<int>)

  /** The running token totals and cost of the counting pass. */
  datatype Usage = Usage(input: nat, output: nat, cached: nat, thoughts: nat, total: nat, cost: real)

  /** The running totals of the counting pass. */
  datatype Totals = Totals(
    messages: nat, gemini: nat, usage: Usage, toolCalls: nat,
    daily: OrderedMap<int, nat>, models: OrderedMap<string, nat>,
    languages: OrderedMap<string, nat>)

  /** `t` holds the totals over the messages `ms`, each defined on its own. */
  ghost predicate Tallied(t: Totals, ms: seq<Message>) {
    && t.messages == |ConcatOf(ms, DayOf)| && t.gemini == SumOf(ms, GeminiOf)
    && t.usage.input == TokenSum(ms, Input) && t.usage.output == TokenSum(ms, Output)
    && t.usage.cached == TokenSum(ms, Cached) && t.usage.thoughts == TokenSum(ms, Thoughts)
    && t.usage.total == TokenSum(ms, Total) && t.usage.cost == RealSumOf(ms, CostOf)
    && t.toolCalls == SumOf(ms, ToolCallsOf)
    && t.daily == TallyOf(ConcatOf(ms, DayOf))
    && t.models == TallyOf(ConcatOf(ms, ModelsOf))
    && t.languages == TallyOf(ConcatOf(ms, LanguagesOf))
  }

  /** The inner loop over the tool calls of a message (src/stats.ts:91-103):
      each call with a language bumps that language's count. */
  method CountLanguages(calls: seq<ToolCall>, languageCounts: OrderedMap<string, nat>)
    returns (counts: OrderedMap<string, nat>)
    requires languageCounts.Valid()
    ensures counts == BumpAll(languageCounts, CallLanguages(calls))
  {
    counts := languageCounts;
    for c := 0 to |calls|
      invariant counts == BumpAll(languageCounts, CallLanguages(calls[..c]))
    {
      var lang := LanguageOf(calls[c]);
      CallStep(calls, c);
      if lang.Some? {
        BumpAllAppend(languageCounts, CallLanguages(calls[..c]), lang.value);
        counts := counts.Set(lang.value, counts.Get(lang.value).GetOr(0) + 1);
      } else {
        assert CallLanguages(calls[..c + 1]) == CallLanguages(calls[..c]);
      }
    }
    assert calls[..|calls|] == calls;
  }

  lemma CallStep(calls: seq<ToolCall>, c: nat)
    requires c < |calls|
    ensures CallLanguages(calls[..c + 1]) == CallLanguages(calls[..c]) +
      (if LanguageOf(calls[c]).Some? then [LanguageOf(calls[c]).value] else [])
  {
    assert calls[..c + 1][..c] == calls[..c];
  }

  /** The usage `u` with the tokens and the cost of message `m` added. */
  function AddUsage(u: Usage, m: Message): Usage {
    Usage(u.input + TokensOf(m, Input), u.output + TokensOf(m, Output), u.cached + TokensOf(m, Cached),
          u.thoughts + TokensOf(m, Thoughts), u.total + TokensOf(m, Total), u.cost + CostOf(m))
  }

  /** A message that reports no usage adds no tokens and no cost. */
  lemma NoUsage(u: Usage, m: Message)
    requires m.tokens.None?
    ensures AddUsage(u, m) == u
  {
  }

  /** The totals `t` with the contribution of message `m` added. */
  function Advance(t: Totals, m: Message): (next: Totals)
    requires t.daily.Valid() && t.models.Valid() && t.languages.Valid()
    ensures next.daily.Valid() && next.models.Valid() && next.languages.Valid()
  {
    Totals(
      t.messages + |DayOf(m)|, t.gemini + GeminiOf(m), AddUsage(t.usage, m), t.toolCalls + ToolCallsOf(m),
      if Counted(m) then Bump(t.daily, m.day) else t.daily,
      if m.role == Gemini && ModelOf(m).Some? then Bump(t.models, ModelOf(m).value) else t.models,
      BumpAll(t.languages, LanguagesOf(m)))
  }

  /** The totals before any message. */
  function Zero(): (t: Totals)
    ensures t.daily.Valid() && t.models.Valid() && t.languages.Valid()
  {
    Totals(0, 0, Usage(0, 0, 0, 0, 0, 0.0), 0, Empty(), Empty(), Empty())
  }

  /** The running totals after the messages `ms`, one message at a time. */
  function TotalsOf(ms: seq<Message>): (t: Totals)
    ensures t.daily.Valid() && t.models.Valid() && t.languages.Valid()
  {
    if ms == [] then Zero() else Advance(TotalsOf(ms[..|ms| - 1]), ms[|ms| - 1])
  }

  /** The running totals are the totals over the messages, each defined on its own. */
  lemma {:induction false} TotalsOfTallied(ms: seq<Message>)
    ensures Tallied(TotalsOf(ms), ms)
  {
    if ms == [] {
      assert Tallied(Zero(), ms);
    } else {
      var init, m := ms[..|ms| - 1], ms[|ms| - 1];
      TotalsOfTallied(init);
      MessageStep(TotalsOf(init), TotalsOf(ms), init, m);
      assert init + [m] == ms;
    }
  }

  lemma TotalsStep(ms: seq<Message>, m: Message)
    ensures TotalsOf(ms + [m]) == Advance(TotalsOf(ms), m)
  {
    assert (ms + [m])[..|ms|] == ms;
  }

  /** Adding one message's contribution to the totals over `ms` gives the
      totals over `ms + [m]`. */
  lemma MessageStep(t: Totals, next: Totals, ms: seq<Message>, m: Message)
    requires Tallied(t, ms)
    requires t.daily.Valid() && t.models.Valid() && t.languages.Valid() && next == Advance(t, m)
    ensures Tallied(next, ms + [m])
  {
    ConcatStep(ms, m, DayOf);
    SumStep(ms, m, GeminiOf);
    SumStep(ms, m, ToolCallsOf);
    RealSumStep(ms, m, CostOf);
    TokenSumStep(ms, m);
    TallyStep(ms, m);
  }

  lemma TallyStep(ms: seq<Message>, m: Message)
    ensures TallyOf(ConcatOf(ms + [m], DayOf)) ==
      if Counted(m) then Bump(TallyOf(ConcatOf(ms, DayOf)), m.day) else TallyOf(ConcatOf(ms, DayOf))
    ensures TallyOf(ConcatOf(ms + [m], ModelsOf)) ==
      if m.role == Gemini && ModelOf(m).Some? then Bump(TallyOf(ConcatOf(ms, ModelsOf)), ModelOf(m).value)
      else TallyOf(ConcatOf(ms, ModelsOf))
    ensures TallyOf(ConcatOf(ms + [m], LanguagesOf)) == BumpAll(TallyOf(ConcatOf(ms, LanguagesOf)), LanguagesOf(m))
  {
    ConcatStep(ms, m, DayOf);
    ConcatStep(ms, m, ModelsOf);
    ConcatStep(ms, m, LanguagesOf);
    TallyConcat(ConcatOf(ms, LanguagesOf), LanguagesOf(m));
    if Counted(m) {
      TallyAppend(ConcatOf(ms, DayOf), m.day);
    } else {
      assert ConcatOf(ms, DayOf) + DayOf(m) == ConcatOf(ms, DayOf);
    }
    if m.role == Gemini && ModelOf(m).Some? {
      TallyAppend(ConcatOf(ms, ModelsOf), ModelOf(m).value);
    } else {
      assert ConcatOf(ms, ModelsOf) + ModelsOf(m) == ConcatOf(ms, ModelsOf);
    }
  }

  lemma ConcatStep<T>(ms: seq<Message>, m: Message, f: Message -> seq<T>)
    ensures ConcatOf(ms + [m], f) == ConcatOf(ms, f) + f(m)
  {
    assert (ms + [m])[..|ms|] == ms;
  }

  lemma SumStep(ms: seq<Message>, m: Message, f: Message -> nat)
    ensures SumOf(ms + [m], f) == SumOf(ms, f) + f(m)
  {
    assert (ms + [m])[..|ms|] == ms;
  }

  lemma RealSumStep(ms: seq<Message>, m: Message, f: Message -> real)
    ensures RealSumOf(ms + [m], f) == RealSumOf(ms, f) + f(m)
  {
    assert (ms + [m])[..|ms|] == ms;
  }

  lemma TokenSumStep(ms: seq<Message>, m: Message)
    ensures forall f :: TokenSum(ms + [m], f) == TokenSum(ms, f) + TokensOf(m, f)
  {
    assert (ms + [m])[..|ms|] == ms;
  }

  lemma HistogramStep(ms: seq<Message>, m: Message)
    ensures var h := WeekdayHistogram(ms);
      WeekdayHistogram(ms + [m]) == if Counted(m) then h[Weekday(m.day) := h[Weekday(m.day)] + 1] else h
  {
    var xs := ConcatOf(ms, WeekdayOf);
    ConcatStep(ms, m, WeekdayOf);
    var h, next := WeekdayHistogram(ms), WeekdayHistogram(ms + [m]);
    forall w | 0 <= w < 7
      ensures next[w] == if Counted(m) && w == Weekday(m.day) then h[w] + 1 else h[w]
    {
      if Counted(m) {
        CountAppend(xs, Weekday(m.day), w);
      } else {
        assert xs + WeekdayOf(m) == xs;
      }
    }
  }

  lemma TakeStep<T>(xs: seq<T>, k: nat)
    requires k < |xs|
    ensures xs[..k + 1] == xs[..k] + [xs[k]]
  {
  }

  lemma SessionStep(sessions: seq<Snapshot>, s: nat)
    requires s < |sessions|
    ensures AllMessages(sessions[..s + 1]) == AllMessages(sessions[..s]) + sessions[s].messages
    ensures Projects(sessions[..s + 1]) == Projects(sessions[..s]) + {sessions[s].projectHash}
  {
    assert sessions[..s + 1][..s] == sessions[..s];
    assert sessions[..s + 1] == sessions[..s] + [sessions[s]];
  }

  /** The body of the message loop (src/stats.ts:58-105): what one message
      adds to the running totals. */
  method CountMessage(msg: Message, totals: Totals) returns (next: Totals)
    requires totals.daily.Valid() && totals.models.Valid() && totals.languages.Valid()
    ensures next == Advance(totals, msg)
  {
    next := totals;
    if msg.role == User || msg.role == Gemini {
      next := next.(messages := next.messages + 1, daily := Bump(next.daily, msg.day));
    }
    if msg.role == Gemini {
      next := CountGemini(msg, next);
    }
  }

  /** What a "gemini" message adds (src/stats.ts:70-104): the message, its
      model, its usage, its tool calls and their languages. */
  method CountGemini(msg: Message, totals: Totals) returns (next: Totals)
    requires msg.role == Gemini
    requires totals.models.Valid() && totals.languages.Valid()
    ensures next == totals.(
      gemini := totals.gemini + 1,
      models := if ModelOf(msg).Some? then Bump(totals.models, ModelOf(msg).value) else totals.models,
      usage := AddUsage(totals.usage, msg),
      toolCalls := totals.toolCalls + |msg.toolCalls|,
      languages := BumpAll(totals.languages, CallLanguages(msg.toolCalls)))
  {
    next := totals.(gemini := totals.gemini + 1);
    var model := ModelOf(msg);
    if model.Some? {
      next := next.(models := Bump(next.models, model.value));
    }
    if msg.tokens.Some? {
      var usage := CountUsage(msg, next.usage);
      next := next.(usage := usage);
    } else {
      NoUsage(next.usage, msg);
    }
    next := CountTools(msg.toolCalls, next);
  }

  /** The tool calls of a "gemini" message and their languages (src/stats.ts:90-103). */
  method CountTools(calls: seq<ToolCall>, totals: Totals) returns (next: Totals)
    requires totals.languages.Valid()
    ensures next == totals.(toolCalls := totals.toolCalls + |calls|,
                            languages := BumpAll(totals.languages, CallLanguages(calls)))
  {
    next := totals.(toolCalls := totals.toolCalls + |calls|);
    var languageCounts := CountLanguages(calls, next.languages);
    next := next.(languages := languageCounts);
  }

  /** The token counts and the cost of a "gemini" message that reports its
      usage (src/stats.ts:76-88); a missing count adds 0, and the cost is
      added only when the message names its model. */
  method CountUsage(msg: Message, usage: Usage) returns (next: Usage)
    requires msg.role == Gemini && msg.tokens.Some?
    ensures next == AddUsage(usage, msg)
  {
    var tokens := msg.tokens.value;
    next := usage.(input := usage.input + Field(tokens, Input),
                   output := usage.output + Field(tokens, Output),
                   cached := usage.cached + Field(tokens, Cached),
                   thoughts := usage.thoughts + Field(tokens, Thoughts),
                   total := usage.total + Field(tokens, Total));
    var model := ModelOf(msg);
    if model.Some? {
      var combinedOutput := BilledOutput(tokens);
      next := next.(cost := next.cost +
        CalculateCost(model.value, Field(tokens, Input), combinedOutput, Field(tokens, Cached)));
    }
  }

  /** One turn of the message loop of src/stats.ts:58-105: the message is
      counted in the totals and, when active, in the weekday counts. */
  method CountActive(msg: Message, totals: Totals, weekdayCounts: array<nat>, ghost processed: seq<Message>)
    returns (next: Totals)
    requires totals == TotalsOf(processed)
    requires weekdayCounts.Length == 7 && weekdayCounts[..] == WeekdayHistogram(processed)
    modifies weekdayCounts
    ensures next == TotalsOf(processed + [msg])
    ensures weekdayCounts[..] == WeekdayHistogram(processed + [msg])
  {
    TotalsStep(processed, msg);
    HistogramStep(processed, msg);
    next := CountMessage(msg, totals);
    if msg.role == User || msg.role == Gemini {
      var dayOfWeek := Weekday(msg.day);
      weekdayCounts[dayOfWeek] := weekdayCounts[dayOfWeek] + 1;
    }
  }

  /** The messages `before` followed by the first `k` of `messages`. */
  ghost function Upto(before: seq<Message>, messages: seq<Message>, k: nat): seq<Message>
    requires k <= |messages|
  {
    if k == 0 then before else Upto(before, messages, k - 1) + [messages[k - 1]]
  }

  lemma {:induction false} UptoAll(before: seq<Message>, messages: seq<Message>, k: nat)
    requires k <= |messages|
    ensures Upto(before, messages, k) == before + messages[..k]
  {
    if k > 0 {
      UptoAll(before, messages, k - 1);
      TakeStep(messages, k - 1);
    }
  }

  /** The inner loop of src/stats.ts:58-105 over the messages of one
      session, after the messages `before` of the earlier sessions. */
  method CountSession(messages: seq<Message>, totals: Totals, weekdayCounts: array<nat>, ghost before: seq<Message>)
    returns (next: Totals)
    requires totals == TotalsOf(before)
    requires weekdayCounts.Length == 7 && weekdayCounts[..] == WeekdayHistogram(before)
    modifies weekdayCounts
    ensures next == TotalsOf(before + messages)
    ensures weekdayCounts[..] == WeekdayHistogram(before + messages)
  {
    next := totals;
    for k := 0 to |messages|
      invariant next == TotalsOf(Upto(before, messages, k))
      invariant weekdayCounts[..] == WeekdayHistogram(Upto(before, messages, k))
    {
      next := CountActive(messages[k], next, weekdayCounts, Upto(before, messages, k));
    }
    UptoAll(before, messages, |messages|);
    assert messages[..|messages|] == messages;
  }

  /** The counting pass of src/stats.ts:50-106 over all messages of all
      sessions, in order. */
  method CountSessions(sessions: seq<Snapshot>) returns (projectHashes: set<string>, totals: Totals, weekdayCounts: array<nat>)
    ensures projectHashes == Projects(sessions)
    ensures totals == TotalsOf(AllMessages(sessions))
    ensures fresh(weekdayCounts) && weekdayCounts.Length == 7
    ensures weekdayCounts[..] == WeekdayHistogram(AllMessages(sessions))
  {
    projectHashes := {};
    totals := Zero();
    weekdayCounts := new nat[7](_ => 0);
    assert weekdayCounts[..] == WeekdayHistogram([]);
    for s := 0 to |sessions|
      invariant projectHashes == Projects(sessions[..s])
      invariant totals == TotalsOf(AllMessages(sessions[..s]))
      invariant weekdayCounts[..] == WeekdayHistogram(AllMessages(sessions[..s]))
    {
      var session := sessions[s];
      SessionStep(sessions, s);
      projectHashes := projectHashes + {session.projectHash};
      totals := CountSession(session.messages, totals, weekdayCounts, AllMessages(sessions[..s]));
    }
    assert sessions[..|sessions|] == sessions;
  }

  /** The sort key of `Array.from(dailyActivity.keys()).sort()`: day
      numbers in ascending order, as their "yyyy-MM-dd" keys sort. */
  function DayKey(d: int): int {
    d
  }

  /** `stats` reports the sessions: every total is the total over all
      messages defined on its own, the rankings, the busiest days and the
      streaks are those of the counts, and the period fields are passed
      through. `today` is the day the report is made on. */
  ghost predicate Summarizes(sessions: seq<Snapshot>, periodLabel: string, startDate: Date, endDate: Date,
                             firstSessionDay: Option<int>, today: int, stats: GeminiStats)
  {
    var all := AllMessages(sessions);
    var models := TallyOf(ConcatOf(all, ModelsOf));
    var languages := TallyOf(ConcatOf(all, LanguagesOf));
    var daily := TallyOf(ConcatOf(all, DayOf));
    var week := stats.weekdayActivity;
    && stats.year == endDate.year && stats.periodLabel == periodLabel
    && stats.startDate == startDate && stats.endDate == endDate
    && stats.firstSessionDay == firstSessionDay
    && stats.daysSinceFirstSession == (if firstSessionDay.Some? then today - firstSessionDay.value else 0)
    && stats.totalSessions == |sessions| && stats.totalProjects == |Projects(sessions)|
    && stats.totalMessages == |ConcatOf(all, DayOf)|
    && stats.totalInputTokens == TokenSum(all, Input) && stats.totalOutputTokens == TokenSum(all, Output)
    && stats.totalCachedTokens == TokenSum(all, Cached) && stats.totalThoughtTokens == TokenSum(all, Thoughts)
    && stats.totalTokens == TokenSum(all, Total)
    && stats.totalCost == RealSumOf(all, CostOf) && stats.hasUsageCost == (stats.totalCost > 0.0)
    && stats.totalToolCalls == SumOf(all, ToolCallsOf)
    && stats.topModels == Top(models, SumOf(all, GeminiOf))
    && stats.topLanguages == Top(languages, Sum(languages.Values()))
    && stats.dailyActivity == daily
    && MostActive(daily, stats.mostActiveDay)
    && week.counts == WeekdayHistogram(all)
    && WeekdayPeakOf(week.counts, week.mostActiveDay, week.maxCount)
    && week.mostActiveDayName == DayNames[week.mostActiveDay]
    && (exists start :: LongestRun(SortBy(daily.keys, DayKey), stats.maxStreak, stats.maxStreakDays, start))
    && CurrentRun(daily, today, stats.currentStreak)
  }

  /** `processStats` (src/stats.ts:25-240). The clock is a parameter: the
      report is made on day `today`. */
  method ProcessStats(sessions: seq<Snapshot>, periodLabel: string, startDate: Date, endDate: Date,
                      absoluteFirstSessionDay: Option<int>, today: int)
    returns (stats: GeminiStats)
    ensures Summarizes(sessions, periodLabel, startDate, endDate, absoluteFirstSessionDay, today, stats)
  {
    var projectHashes, totals, weekdayCounts := CountSessions(sessions);
    ghost var all := AllMessages(sessions);
    TotalsOfTallied(all);

    var topModels := Top(totals.models, totals.gemini);
    var totalLanguageActions := Sum(totals.languages.Values());
    var topLanguages := Top(totals.languages, totalLanguageActions);

    var mostActiveDay := MostActiveDay(totals.daily);

    var counts := weekdayCounts[..];
    var mostActiveWeekdayIndex, maxWeekdayCount := WeekdayPeak(counts);
    var weekdayActivity := WeekdayActivity(counts, mostActiveWeekdayIndex,
      DayNames[mostActiveWeekdayIndex], maxWeekdayCount);

    var sortedDates := SortBy(totals.daily.keys, DayKey);
    var maxStreak, maxStreakDays := LongestStreak(sortedDates);
    var currentStreak := 0;
    if |sortedDates| > 0 {
      currentStreak := CurrentStreak(totals.daily, today);
    } else {
      assert totals.daily.keys == [];
    }

    var daysSinceFirstSession := if absoluteFirstSessionDay.Some? then today - absoluteFirstSessionDay.value else 0;
    stats := GeminiStats(
      endDate.year, periodLabel, startDate, endDate,
      absoluteFirstSessionDay, daysSinceFirstSession,
      |sessions|, totals.messages, |projectHashes|,
      totals.usage.input, totals.usage.output, totals.usage.cached, totals.usage.thoughts, totals.usage.total,
      totals.usage.cost, totals.usage.cost > 0.0,
      totals.toolCalls,
      topModels, topLanguages,
      totals.daily, mostActiveDay,
      weekdayActivity,
      maxStreak, currentStreak, maxStreakDays);
  }
}
