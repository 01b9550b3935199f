/** What each chat message contributes to the running totals of
    `processStats` (src/stats.ts:50-106), and the totals over a sequence of
    messages, defined independently of the loop that computes them. */
module Tallies {
  import opened Wrappers
  import opened OrderedMaps
  import opened Calendar
  import opened Pricing
  import opened Sessions
  import opened Languages

  /** Messages of type "user" or "gemini" count as activity. */
  predicate Counted(m: Message) {
    m.role == User || m.role == Gemini
  }

  /** `msg.model` when it is truthy (present and non-empty). */
  function ModelOf(m: Message): (r: Option<string>)
    ensures r.Some? ==> r.value != ""
  {
    if m.model.Some? && m.model.value != "" then m.model else None
  }

  datatype TokenField = Input | Output | Cached | Thoughts | Total

  /** `msg.tokens.<field> || 0`. */
  function Field(t: TokenCounts, f: TokenField): nat {
    match f
    case Input => t.input.GetOr(0)
    case Output => t.output.GetOr(0)
    case Cached => t.cached.GetOr(0)
    case Thoughts => t.thoughts.GetOr(0)
    case Total => t.total.GetOr(0)
  }

  // ---------------------------------------------------------------------
  // Contributions of one message

  function DayOf(m: Message): seq<int> {
    if Counted(m) then [m.day] else []
  }

  function WeekdayOf(m: Message): seq<int> {
    if Counted(m) then [Weekday(m.day)] else []
  }

  function GeminiOf(m: Message): nat {
    if m.role == Gemini then 1 else 0
  }

  function ModelsOf(m: Message): seq<string> {
    if m.role == Gemini && ModelOf(m).Some? then [ModelOf(m).value] else []
  }

  function TokensOf(m: Message, f: TokenField): nat {
    if m.role == Gemini && m.tokens.Some? then Field(m.tokens.value, f) else 0
  }

  /** Thought tokens are billed at the output rate, together with the
      output tokens. */
  function BilledOutput(t: TokenCounts): nat {
    Field(t, Output) + Field(t, Thoughts)
  }

  function CostOf(m: Message): real {
    if m.role == Gemini && m.tokens.Some? && ModelOf(m).Some? then
      var t := m.tokens.value;
      CalculateCost(ModelOf(m).value, Field(t, Input), BilledOutput(t), Field(t, Cached))
    else 0.0
  }

  function ToolCallsOf(m: Message): nat {
    if m.role == Gemini then |m.toolCalls| else 0
  }

  /** The languages counted for a sequence of tool calls, in order. */
  function CallLanguages(calls: seq<ToolCall>): seq<string> {
    if calls == [] then []
    else
      var lang := LanguageOf(calls[|calls| - 1]);
      CallLanguages(calls[..|calls| - 1]) + (if lang.Some? then [lang.value] else [])
  }

  function LanguagesOf(m: Message): seq<string> {
    if m.role == Gemini then CallLanguages(m.toolCalls) else []
  }

  // ---------------------------------------------------------------------
  // Totals over a sequence of messages

  function SumOf(ms: seq<Message>, f: Message -> nat): nat {
    if ms == [] then 0 else SumOf(ms[..|ms| - 1], f) + f(ms[|ms| - 1])
  }

  function RealSumOf(ms: seq<Message>, f: Message -> real): real {
    if ms == [] then 0.0 else RealSumOf(ms[..|ms| - 1], f) + f(ms[|ms| - 1])
  }

  function TokenSum(ms: seq<Message>, f: TokenField): nat {
    if ms == [] then 0 else TokenSum(ms[..|ms| - 1], f) + TokensOf(ms[|ms| - 1], f)
  }

  function ConcatOf<T>(ms: seq<Message>, f: Message -> seq<T>): seq<T> {
    if ms == [] then [] else ConcatOf(ms[..|ms| - 1], f) + f(ms[|ms| - 1])
  }

  lemma AppendOne(ms: seq<Message>, m: Message)
    ensures (ms + [m])[..|ms|] == ms && (ms + [m])[|ms|] == m
  {
  }

  /** The messages of all sessions, in order. */
  function AllMessages(sessions: seq<Snapshot>): seq<Message> {
    if sessions == [] then []
    else AllMessages(sessions[..|sessions| - 1]) + sessions[|sessions| - 1].messages
  }

  /** The distinct project hashes of the sessions. */
  function Projects(sessions: seq<Snapshot>): set<string> {
    set s | s in sessions :: s.projectHash
  }

  // ---------------------------------------------------------------------
  // Properties of the totals

  /** The weekday histogram: how many active messages fall on each weekday. */
  function WeekdayHistogram(ms: seq<Message>): (h: seq<nat>)
    ensures |h| == 7
  {
    seq(7, w requires 0 <= w < 7 => Count(ConcatOf(ms, WeekdayOf), w))
  }

  lemma {:induction false} WeekdaysInRange(ms: seq<Message>)
    ensures forall x :: x in ConcatOf(ms, WeekdayOf) ==> 0 <= x < 7
  {
    if ms != [] {
      WeekdaysInRange(ms[..|ms| - 1]);
    }
  }

  /** The seven counts of a histogram of weekdays add up to its length. */
  lemma {:induction false} HistogramSum(xs: seq<int>)
    requires forall x :: x in xs ==> 0 <= x < 7
    ensures Sum(seq(7, w requires 0 <= w < 7 => Count(xs, w))) == |xs|
  {
    var h := seq(7, w requires 0 <= w < 7 => Count(xs, w));
    if xs == [] {
      SumZero(h);
    } else {
      var init, x := xs[..|xs| - 1], xs[|xs| - 1];
      assert x in xs;
      forall y | y in init ensures 0 <= y < 7 { assert y in xs; }
      HistogramSum(init);
      var h0 := seq(7, w requires 0 <= w < 7 => Count(init, w));
      assert h == h0[x := h0[x] + 1];
      SumIncrement(h0, x);
    }
  }

  lemma {:induction false} SumZero(vs: seq<nat>)
    requires forall i :: 0 <= i < |vs| ==> vs[i] == 0
    ensures Sum(vs) == 0
  {
    if vs != [] {
      SumZero(vs[..|vs| - 1]);
    }
  }

  /** Every active message is counted once per day and once per weekday. */
  lemma ActivitySums(ms: seq<Message>)
    ensures Sum(TallyOf(ConcatOf(ms, DayOf)).Values()) == |ConcatOf(ms, DayOf)|
    ensures Sum(WeekdayHistogram(ms)) == |ConcatOf(ms, DayOf)|
  {
    TallySum(ConcatOf(ms, DayOf));
    WeekdaysInRange(ms);
    HistogramSum(ConcatOf(ms, WeekdayOf));
    SameCount(ms);
  }

  lemma {:induction false} SameCount(ms: seq<Message>)
    ensures |ConcatOf(ms, WeekdayOf)| == |ConcatOf(ms, DayOf)|
  {
    if ms != [] {
      SameCount(ms[..|ms| - 1]);
    }
  }

  /** The count of active messages is the number of messages of type
      "user" or "gemini". */
  lemma {:induction false} ActiveCount(ms: seq<Message>)
    ensures |ConcatOf(ms, DayOf)| == |set i | 0 <= i < |ms| && Counted(ms[i])|
  {
    if ms != [] {
      var init := ms[..|ms| - 1];
      ActiveCount(init);
      var a := set i | 0 <= i < |init| && Counted(init[i]);
      var b := set i | 0 <= i < |ms| && Counted(ms[i]);
      if Counted(ms[|ms| - 1]) {
        assert b == a + {|ms| - 1};
      } else {
        assert b == a;
      }
    }
  }

  /** Totals over consecutive runs of messages add up, so they do not
      depend on how the messages are grouped into sessions. */
  lemma {:induction false} SumOfConcat(a: seq<Message>, b: seq<Message>, f: Message -> nat)
    ensures SumOf(a + b, f) == SumOf(a, f) + SumOf(b, f)
  {
    if b != [] {
      var b0 := b[..|b| - 1];
      assert (a + b)[..|a + b| - 1] == a + b0;
      SumOfConcat(a, b0, f);
    } else {
      assert a + b == a;
    }
  }

  /** A sum of non-negative amounts is positive exactly when one of them is. */
  lemma {:induction false} NonNegativeSum(ms: seq<Message>, f: Message -> real)
    requires forall m :: f(m) >= 0.0
    ensures RealSumOf(ms, f) >= 0.0
    ensures RealSumOf(ms, f) > 0.0 <==> exists i :: 0 <= i < |ms| && f(ms[i]) > 0.0
  {
    if ms != [] {
      var init := ms[..|ms| - 1];
      NonNegativeSum(init, f);
      if exists i :: 0 <= i < |init| && f(init[i]) > 0.0 {
        var i :| 0 <= i < |init| && f(init[i]) > 0.0;
        assert ms[i] == init[i];
      }
      if exists i :: 0 <= i < |ms| && f(ms[i]) > 0.0 {
        var i :| 0 <= i < |ms| && f(ms[i]) > 0.0;
        if i < |init| { assert init[i] == ms[i]; }
      }
    }
  }

  /** Every message costs a non-negative amount, so the total cost is
      positive exactly when some message has a positive cost. */
  lemma CostPositive(ms: seq<Message>)
    ensures RealSumOf(ms, CostOf) >= 0.0
    ensures RealSumOf(ms, CostOf) > 0.0 <==> exists i :: 0 <= i < |ms| && CostOf(ms[i]) > 0.0
  {
    forall m ensures CostOf(m) >= 0.0 {
      MessageCostNonNegative(m);
    }
    NonNegativeSum(ms, CostOf);
  }

  lemma MessageCostNonNegative(m: Message)
    ensures CostOf(m) >= 0.0
  {
    if m.role == Gemini && m.tokens.Some? && ModelOf(m).Some? {
      var t := m.tokens.value;
      CalculateCostNonNegative(ModelOf(m).value, Field(t, Input), BilledOutput(t), Field(t, Cached));
    }
  }

  /** Model names are counted for "gemini" messages only, so the model
      counts never add up to more than the number of such messages. */
  lemma {:induction false} ModelsAtMostGemini(ms: seq<Message>)
    ensures Sum(TallyOf(ConcatOf(ms, ModelsOf)).Values()) <= SumOf(ms, GeminiOf)
  {
    TallySum(ConcatOf(ms, ModelsOf));
    ModelsLength(ms);
  }

  lemma {:induction false} ModelsLength(ms: seq<Message>)
    ensures |ConcatOf(ms, ModelsOf)| <= SumOf(ms, GeminiOf)
  {
    if ms != [] {
      ModelsLength(ms[..|ms| - 1]);
    }
  }
}
