# Gemini CLI Wrapped, modelled in Dafny

Gemini CLI Wrapped reads the chat-history files that Gemini CLI keeps for
each session and turns a year of them into a summary image: how many
sessions, messages and projects there were; how many tokens were used and
what they cost; which models and languages came up most; and the busiest
day and weekday. It also shows the longest streak of active days, the
current streak, and a calendar heat map.

This project models the deterministic core of that pipeline and proves
what it computes:

- `Collector` (`collector.dfy`): the snapshot selection of
  `collectGeminiSessions`. Among the parsed session files of the requested
  year it keeps one snapshot per session id, the most recently updated one.
  It is an imperative loop over an `OrderedMap` that keeps JavaScript's
  `Map` insertion order. The files arrive as a sequence in which `None`
  stands for a file that could not be read or parsed.
- `Pricing` (`pricing.dfy`): the rate table and `calculateCost`. This
  covers the longest-prefix lookup of a model id, the tier-2 rates above
  200,000 input tokens, and the cost formula with fresh-input clamping.
  Rates are exact decimals, so costs are `real`s.
- `Stats` (`stats.dfy`), with its specification modules:
  - `Tallies`: what each message adds, and the totals over a sequence of
    messages, defined on their own.
  - `Languages`: the extension table and the language of a tool call.
  - `Rankings`: the top five, the most active day and the weekday peak.
  - `Streaks`: the longest and the current streak.

  `processStats` is modelled as methods. Their loops carry running totals
  and bump an in-place weekday array. Each method is proved to produce
  exactly the totals that the specification functions define, and the
  properties of the report are proved about those functions.
- `Dates` (`dates.dfy`), on a proleptic Gregorian calendar (`Calendar`):
  - `isWrappedAvailable`, with today's date as a parameter;
  - `formatDateKey`;
  - `getIntensityLevel`;
  - `generateWeeksForYear`, as the original day-by-day walk. It is proved
    to lay out exactly the days of the year up to the end date, each once
    and in order, in weeks of at most seven cells that start on Sunday.
- `Heatmap` (`heatmap.dfy`): the largest daily count, the count of a
  day's cell, and `getMonthLabels`. Month labels are modelled as the
  original loop and proved equal to a specification in which each dated
  week is labelled when its month differs from the last label's.
- Support modules:
  - `Wrappers` (`Option`);
  - `OrderedMaps` (insertion-ordered maps and counting with them);
  - `Sorting` (a stable sort by an integer key, for `Array.prototype.sort`);
  - `Text` (decimal digits, `padStart`, `split`, `parseInt`, ASCII lower-casing);
  - `Sessions` (the parsed session data).

Days are local day numbers (days since 1970-01-01), and weekday 0 is
Sunday. Where the original reads the clock, the model takes today's date
or day number as a parameter.

## Model

| member | source | states |
|---|---|---|
| Collector.CollectSessions | src/collector.ts:35-56 | The result is the selection `Kept(files, year)`, with one snapshot per session id. Every returned snapshot is an unchanged input snapshot whose start year is the requested one. Every accepted file's session is returned with a snapshot that is not older than it. |
| Collector.SelectEntries | src/collector.ts:42-50 | Every stored entry is the snapshot of the file at its recorded index, and that file was accepted for the requested year under that id. |
| Collector.SelectOrder | src/collector.ts:49 | The map's keys are the accepted ids in order of first acceptance; a replacement keeps its position. The map holds exactly the accepted ids. |
| Collector.SelectNewest | src/collector.ts:47-50 | Every accepted file's id is stored with a snapshot that the file is not newer than. A snapshot kept from a later file has a valid `lastUpdated` and is strictly newer, unless the earlier file's `lastUpdated` is invalid. |
| Collector.FirstWinsTies | src/collector.ts:48 | Every accepted file's id is kept. When the kept snapshot has the same `lastUpdated` as an accepted file of its id, it comes from that file or an earlier one: the comparison is a strict `>`. |
| Collector.SkipUnreadable | src/collector.ts:51-53 | Inserting an unreadable file anywhere in the input leaves the kept snapshots unchanged. |
| Collector.SelectPrefix | src/collector.ts:37-54 | The map after `n` files depends on those `n` files only. |
| Collector.KeptFromFiles | src/collector.ts:56 | The kept snapshots have distinct ids; each is an input snapshot of the requested year. |
| Collector.KeptNewest | src/collector.ts:47-50 | Every accepted file's id is kept, with a snapshot that the file is not newer than. |
| Pricing.KeysDistinct | src/pricing.ts:15-47 | No two table models share a key. |
| Pricing.RatesNonNegative | src/pricing.ts:15-47 | Every base and tier-2 rate in the table is non-negative. |
| Pricing.SortedTableSorted | src/pricing.ts:55 | The sorted key list names every model once, in order of non-increasing key length. The two keys of equal length keep their table order, as the stable sort leaves them. |
| Pricing.FindPrefix | src/pricing.ts:56 | The index found is the first whose key the model id starts with. None means no key is a prefix. |
| Pricing.BaseModelLongestKey | src/pricing.ts:55-58 | No model is found exactly when no key is a prefix of the id. Otherwise the model found has a prefix key, longer than every other key that is a prefix. |
| Pricing.BaseModelLongest | src/pricing.ts:55-56 | Any model whose key prefixes the id leads to a found model whose key is at least as long, and longer unless it is that model. |
| Pricing.PricedUnderItself | src/pricing.ts:55-56 | An id equal to a key is priced under that key, even when a shorter key is also its prefix. |
| Pricing.SelectRates | src/pricing.ts:63-76 | At or below 200,000 input tokens the base rates apply. Above it, each defined non-zero tier-2 rate (input, output, cache) replaces its base rate. A tier-2 rate that is missing or 0, which is falsy, always leaves the base rate. |
| Pricing.UnknownModelIsFree | src/pricing.ts:56-58 | An id that no key prefixes costs 0. |
| Pricing.PricedUnder | src/pricing.ts:60-86 | A found model's cost is the cost formula at the rates selected from its table entry for the prompt size. |
| Pricing.BaseRatesUpToThreshold | src/pricing.ts:63-76 | At or below the threshold every model costs the formula at its base rates. |
| Pricing.TierTwoAboveThreshold | src/pricing.ts:63-76 | Above the threshold the pro models cost the formula at their tier-2 input, output and cache rates. |
| Pricing.FlashModelsNeverTiered | src/pricing.ts:66-76 | The flash models cost the formula at their base rates for every prompt size. |
| Pricing.CachedBilledAtCacheRate | src/pricing.ts:78-86 | Moving `c` of the input tokens to the cache bills them at the cache rate instead of the input rate; the rest is unchanged. |
| Pricing.CostNonNegative | src/pricing.ts:80-86 | Non-negative output and cached counts at non-negative rates cost a non-negative amount, for any input count, because fresh input is clamped at 0. |
| Pricing.CalculateCostNonNegative | src/pricing.ts:53-87 | `calculateCost` is non-negative whenever the output and cached counts are. |
| Pricing.FlashIsPrefixOfLite | src/pricing.test.ts:5-15 | "gemini-2.5-flash" is a prefix of "gemini-2.5-flash-lite", so a first-match lookup in table order would misprice the lite model. |
| Pricing.ReferenceIds | src/pricing.test.ts:10-11 | "gemini-2.5-flash-lite" and "gemini-2.5-flash" are each priced under their own key. |
| Pricing.ReferenceProIds | src/pricing.test.ts:22-36 | "gemini-2.5-pro" and "gemini-3-pro" are each priced under their own key. |
| Pricing.ReferenceCostsFlash | src/pricing.test.ts:10-14 | A million input and a million output tokens cost exactly 0.10 + 0.40 on flash-lite and 0.30 + 2.50 on flash. |
| Pricing.ReferenceCostsPro | src/pricing.test.ts:22-28 | On gemini-2.5-pro, 100k/100k costs 1.125 and 300k/100k costs 2.25 at tier 2. Exactly 200k input stays at the base rate, costing 0.25. |
| Pricing.ReferenceCostCached | src/pricing.test.ts:36-41 | On gemini-3-pro, 100k input with 50k cached and no output costs exactly 0.11. |
| Pricing.UnknownReferenceId | src/pricing.test.ts:44-46 | "unknown-model" with 1000 input and 1000 output tokens costs 0. |
| Languages.PathArg | src/stats.ts:94 | The path argument is truthy exactly when one of `file_path`, `path` or `dir_path` is. |
| Languages.LanguageOf | src/stats.ts:94-98 | A counted language is always one of the table's languages. |
| Languages.LanguageOfKey | src/stats.ts:94-99 | A language is counted exactly when the first truthy path argument is a non-empty string whose lower-cased last '.'-segment is a key of the table; the language is that key's entry. |
| Languages.ExtensionOfSuffix | src/stats.ts:96 | The extension of `stem.last` is `last` lower-cased, when `last` has no '.'. |
| Languages.AsWrittenAgrees | src/stats.ts:97-99 | The lookup as written and the own-key lookup agree on every extension except inherited member names. |
| Languages.ConstructorIsInherited | src/stats.ts:97 | "constructor" has no '.', is unchanged by lower-casing, is an inherited member and is not a table key. |
| Languages.LowerCaseMembers | src/stats.ts:96-97 | Of the names inherited from `Object.prototype`, only "constructor" and "__proto__" are unchanged by lower-casing, so only they can be the extension looked up. |
| Languages.InheritedMemberCounted | src/stats.ts:97-99 | A path ending in an inherited member name is counted under that member by the lookup as written. The own-key lookup counts it for no language. |
| Tallies.ActivitySums | src/stats.ts:59-68 | The daily counts and the seven weekday counts each add up to the number of active messages. |
| Tallies.ActiveCount | src/stats.ts:59-60 | The number of active messages is the number of messages of type "user" or "gemini". |
| Tallies.CostPositive | src/stats.ts:83-87 | The total cost is non-negative, and positive exactly when some message has a positive cost. |
| Tallies.MessageCostNonNegative | src/stats.ts:83-87 | Each message adds a non-negative cost. |
| Tallies.ModelsAtMostGemini | src/stats.ts:70-74 | The model counts add up to at most the number of "gemini" messages. |
| Tallies.SumOfConcat | src/stats.ts:50-106 | Totals over consecutive runs of messages add up, so they do not depend on how the messages are grouped into sessions. |
| OrderedMaps.TallyOfCounts | src/stats.ts:64 | Counting with `m.set(k, (m.get(k) \|\| 0) + 1)` lists each element once, in order of first occurrence, with its number of occurrences, which is positive. |
| OrderedMaps.TallySum | src/stats.ts:64 | A tally's counts add up to the number of elements counted. |
| Stats.TotalsOfTallied | src/stats.ts:58-105 | The running totals after a sequence of messages are the independently defined totals: active messages, "gemini" messages, token sums, cost, tool calls, and the daily, model and language tallies. |
| Stats.CountMessage | src/stats.ts:58-105 | One turn of the message loop advances the totals by that message. |
| Stats.CountGemini | src/stats.ts:70-104 | A "gemini" message adds one to its count, its model, its usage and its tool calls with their languages. |
| Stats.CountTools | src/stats.ts:90-103 | Every tool call is counted, and the languages of the calls are bumped in order. |
| Stats.CountLanguages | src/stats.ts:93-102 | The language counts are bumped once per call with a language, in order. |
| Stats.CountUsage | src/stats.ts:76-88 | Each token field adds its value or 0. The cost of the model at input, output plus thoughts, and cached tokens is added when a model is present. |
| Stats.NoUsage | src/stats.ts:76 | A message without token counts adds no usage. |
| Stats.CountActive | src/stats.ts:58-68 | After one message, the totals and the in-place weekday array are those of the messages so far plus this one. |
| Stats.CountSession | src/stats.ts:58-105 | After a session's messages, the totals and the weekday array are those of all messages so far. |
| Stats.CountSessions | src/stats.ts:50-106 | The project set is the set of project hashes. The totals and the weekday histogram are those over all messages of all sessions. |
| Stats.ProcessStats | src/stats.ts:25-240 | The report ties every field to its definition. It covers the period fields, days since the first session, sessions and distinct projects, active messages, token totals, cost and `hasUsageCost` (cost > 0), and tool calls. It also covers the top models (share of "gemini" messages), the top languages (share of all language counts), the daily tally, the most active day, the weekday histogram and peak with its name, the longest streak with the days of the earliest such run, and the current streak. |
| Rankings.PercentageOf | src/stats.ts:113 | A share times the total is the count times 100; it is 0 when the total is 0 and at most 100 when the count is part of the total. |
| Rankings.TopRanking | src/stats.ts:108-127 | The top list has min(5, number of names) entries in non-increasing count order. Each entry is a distinct counted name with its own count and share. Names of equal count keep their order in the map, as the stable sort by `b.count - a.count` leaves them. |
| Sorting.SortByThenBy | src/stats.ts:115 | The sort is stable: elements of equal key keep their input order, stated as a tie-break on any measure that increases along the input. |
| Rankings.TopLeavesOutLower | src/stats.ts:115-116 | A name left out of the top list has no higher count than any listed one. |
| Rankings.MostActiveDay | src/stats.ts:130-139 | There is no most active day exactly when there was no activity. Otherwise its count is the largest, and it is the first day in map order with that count. |
| Rankings.WeekdayPeak | src/stats.ts:143-150 | The peak is the lowest weekday with the largest count, and weekday 0 with count 0 when every count is 0. |
| Streaks.LongestStreak | src/stats.ts:167-192 | The streak is the length of the longest run of consecutive days. Its days are exactly the days of the earliest such run, so their number is the streak. Both are 0 and empty without activity. |
| Streaks.RunDays | src/stats.ts:177-179 | A run of `n` consecutive days holds `n` distinct days, the interval from its first day. |
| Streaks.CountBack | src/stats.ts:200-204 | The count is the number of active days ending at the given day, and the day before them is not active. |
| Streaks.CurrentStreak | src/stats.ts:194-210 | The current streak is the run ending today when today is active, else the run ending yesterday when yesterday is active, else 0. |
| Dates.IsWrappedAvailable | src/utils/dates.ts:8-36 | A year after today's has not started. Any earlier year is available. This year is available from December 1 on; before it, it is not ready, and the days left are those to December 1. |
| Dates.StartsAfterToday | src/utils/dates.ts:13-24 | January 1 of a year is after today exactly when the year is after today's year; December 1 of this year is after today exactly when today is before December. |
| Dates.FormatDateKeyLayout | src/utils/dates.ts:82-87 | A key is the year, a dash, the 1-based month as exactly two digits, a dash, and the day as exactly two digits. |
| Dates.TwoDigitsValue | src/utils/dates.ts:84-85 | Padding a number below 100 gives exactly two digits worth that number. |
| Dates.GetIntensityLevel | src/utils/dates.ts:89-98 | The level is 0 exactly when the count or the maximum is 0. Otherwise it is the band of count/maxCount among 0.1, 0.25, 0.4, 0.6 and 0.8, and the maximum count itself gets level 6. |
| Dates.IntensityMonotone | src/utils/dates.ts:91-97 | For a fixed positive maximum, the level does not decrease as the count grows. |
| Dates.GenerateWeeksForYear | src/utils/dates.ts:38-80 | Read in order, the cells are day `k` of the year for every `k` up to the Saturday closing the end date's week (today in the current year, December 31 otherwise). Each cell is the day's key up to the end date and "" after it, so every date from January 1 to the end date appears once, in order. Every week has 1 to 7 cells and starts with a date; every week after the first starts on Sunday. |
| Heatmap.MaxOf | src/image/heatmap.tsx:26-27 | The maximum is at least every count, is one of them when there are any, and is 0 for none. |
| Heatmap.MaxCountBounds | src/image/heatmap.tsx:26-27 | No cell shows more than the maximum, which is 0 without activity and otherwise some day's count. The busiest day is drawn at level 6. |
| Heatmap.CellCount | src/image/heatmap.tsx:131 | A cell's count is its day's count, and 0 for "" or a day without activity. |
| Heatmap.FirstDate | src/image/heatmap.tsx:216-228 | The first non-empty key of a week is found exactly when the week has one. |
| Heatmap.LabelWeeks | src/image/heatmap.tsx:213-230 | The labelled weeks are dated weeks, in increasing order. |
| Heatmap.LabelsAt | src/image/heatmap.tsx:221-224 | Each label holds the month of its week's first date and the offset weekIndex·(cellSize + gap). |
| Heatmap.GetMonthLabels | src/image/heatmap.tsx:209-233 | The loop's labels are exactly those of the specification: one per labelled week, in order, at its offset. |
| Heatmap.LabelMonthsChange | src/image/heatmap.tsx:211-226 | No two consecutive labels share a month, and the first label's month is not -1. |
| Heatmap.LabelledIff | src/image/heatmap.tsx:220-226 | A dated week is labelled exactly when its month differs from that of the last label before it, or from -1 when there is none. |
| Heatmap.LabelsBefore | src/image/heatmap.tsx:213-230 | The labels of the weeks before `w` are the first labels; all later ones belong to week `w` or after. |
| Heatmap.FirstDatedWeekLabelled | src/image/heatmap.tsx:211-226 | The first dated week gets the first label, unless its month reads as -1. |
| Heatmap.LabelsLeftToRight | src/image/heatmap.tsx:223 | With a positive column pitch the label offsets strictly increase. |
| Heatmap.MonthOfDateKey | src/image/heatmap.tsx:218 | Reading the month back from a date key gives the 0-based month of the date the key was made from. |

## Left out

- File discovery and reading (`stat`, `glob`, `readFile`, `JSON.parse`,
  and the home-directory paths in `src/collector.ts`). These are I/O. The
  parsed files are an input sequence, with `None` for a failed read or
  parse.
- `mergeSessions`: `src/collector.test.ts` imports it, but
  `src/collector.ts` does not define it. Its message-level merging is not
  the selection the collector performs.
- The command line, prompts and terminal output (`src/index.ts`), and the
  rendering of the image (the JSX of `src/image/heatmap.tsx`,
  `src/image/template.tsx`, `src/image/design-tokens.ts`, `scripts/`).
  These are I/O and presentation.
- The clock: `new Date()` becomes a parameter (`today` in
  `Dates.IsWrappedAvailable`, `Dates.GenerateWeeksForYear` and
  `Stats.ProcessStats`).
- `date-fns` and JavaScript dates become a proleptic Gregorian calendar on
  day numbers: no time zones, no daylight saving, no millisecond
  instants.
  - A message's timestamp is its local day number. `startTime` becomes
    its year and `lastUpdated` a comparable instant, with `None` for
    `NaN`.
  - Stats.ProcessStats: keys `dailyActivity` and `maxStreakDays` by day
    number rather than by "yyyy-MM-dd" string, and sorts them
    numerically. For years 0 to 9999 this is the string sort, and
    `differenceInDays(curr, prev) === 1` becomes "the next day number".
    The key string itself is modelled by `Dates.FormatDateKey`.
  - Stats.ProcessStats: a message whose `timestamp` is missing or does
    not parse makes `format` throw a `RangeError` at `src/stats.ts:62-63`,
    which aborts `processStats`. The model's messages always carry a day,
    so this abort is not modelled.
  - Dates.GenerateWeeksForYear: `new Date(year, 0, 1)` reads years 0 to
    99 as 1900 to 1999, so for such a year no walked date has that year
    and the original returns no weeks. The model lays out the weeks of
    the year itself; it matches the original for years from 100 on.
  - Stats.ProcessStats: `daysSinceFirstSession` is `today` minus the
    first session's day number. The 24-hour truncation of
    `differenceInDays` within a day is not modelled.
  - Dates.IsWrappedAvailable: takes today as a date. The days left are
    counted in calendar days; the rounding of `Math.ceil` over a
    daylight-saving change is not modelled.
- `formattedDate` of the most active day and the text of the
  availability messages: these are presentation.
- `firstSessionInPeriod` in `processStats` is computed and never used, so
  it is not modelled.
- Floating point: costs, percentages and intensity ratios are exact
  `real`s. IEEE-754 rounding is not modelled.
- Stats.ProcessStats: the language tally, `topLanguages` and the language
  total use the own-key lookup `Languages.LanguageOf`, the corrected
  lookup of the "## Findings" row. A path ending in ".constructor" or
  ".__proto__", which the original counts under an inherited value, adds
  no language here; `Languages.InheritedMemberCounted` models that case.
- Languages.LanguageOf: `Text.ToLower` lower-cases only the ASCII letters
  A to Z, where `toLowerCase` is Unicode-aware. An extension with another
  upper-case letter (such as the Kelvin sign U+212A, which lower-cases to
  "k") is not lower-cased, so it may miss a table key the original finds.
- Token counts are natural numbers. A negative or non-numeric count in a
  file is not modelled; a missing or zero one adds 0, as `|| 0` does.
- Pricing.SortedTableSorted: the sorted key list is written out, not
  computed by a sort. The lemma proves it is the list a stable sort by
  decreasing key length produces.
- Heatmap.MonthOf: a month part that does not start with a digit reads as
  `None`, where `parseInt` gives `NaN`. `Text.ParseInt` does not skip
  leading whitespace, which no date key contains.
- Heatmap.MonthOfDateKey: proved for years from 0 on. A negative year's
  key starts with '-', and then the month is not the second part.
- Dates.GenerateWeeksForYear: the safety `break` once the walk passes the
  following year is modelled. The proof shows the walk ends before it.

## Findings

| source | as written | input that shows it | evidently intended | confidence | as-written member | corrected member |
|---|---|---|---|---|---|---|
| src/stats.ts:97-99 | `EXTENSION_MAP[ext]` on a plain object literal also finds members inherited from `Object.prototype`, and they are truthy, so the guard passes | a tool call with `file_path` "notes.constructor" (or ending in ".__proto__") bumps `languageCounts` under the inherited value instead of counting no language; the other inherited names have capitals, which the `toLowerCase` at line 96 removes, so they are never looked up | count a language only when the extension is an own key of the table | not executed | Languages.InheritedMemberCounted | Languages.LanguageOfKey |
