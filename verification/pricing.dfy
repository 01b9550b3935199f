/** The cost estimate of one model response: the price table, the lookup of
    a model id by the longest table key it starts with, the second price
    tier above 200,000 input tokens, and the cost formula. Rates are exact
    decimals, so the model works on `real`. */
module Pricing {
  import opened Wrappers

  /** Dollar rates per million tokens; the tier-2 rates are optional. */
  datatype ModelPricing = ModelPricing(
    inputPerMillion: real,
    outputPerMillion: real,
    cachePerMillion: real,
    inputPerMillionOverThreshold: Option<real>,
    outputPerMillionOverThreshold: Option<real>,
    cachePerMillionOverThreshold: Option<real>)

  function Tiered(input: real, output: real, cache: real,
                  input2: real, output2: real, cache2: real): ModelPricing {
    ModelPricing(input, output, cache, Some(input2), Some(output2), Some(cache2))
  }

  function Flat(input: real, output: real, cache: real): ModelPricing {
    ModelPricing(input, output, cache, None, None, None)
  }

  /** The models the price table lists. */
  datatype PricedModel =
    | Gemini3Pro | Gemini3ProPreview | Gemini3Flash | Gemini3FlashPreview
    | Gemini25Pro | Gemini25Flash | Gemini25FlashLite

  /** The table key of each model. */
  function Key(m: PricedModel): string {
    match m
    case Gemini3Pro => "gemini-3-pro"
    case Gemini3ProPreview => "gemini-3-pro-preview"
    case Gemini3Flash => "gemini-3-flash"
    case Gemini3FlashPreview => "gemini-3-flash-preview"
    case Gemini25Pro => "gemini-2.5-pro"
    case Gemini25Flash => "gemini-2.5-flash"
    case Gemini25FlashLite => "gemini-2.5-flash-lite"
  }

  /** `GEMINI_PRICING[key]`. */
  function PricingOf(m: PricedModel): ModelPricing {
    match m
    case Gemini3Pro => Tiered(2.00, 12.00, 0.20, 4.00, 18.00, 0.40)
    case Gemini3ProPreview => Tiered(2.00, 12.00, 0.20, 4.00, 18.00, 0.40)
    case Gemini3Flash => Flat(0.50, 3.00, 0.05)
    case Gemini3FlashPreview => Flat(0.50, 3.00, 0.05)
    case Gemini25Pro => Tiered(1.25, 10.00, 0.125, 2.50, 15.00, 0.25)
    case Gemini25Flash => Flat(0.30, 2.50, 0.03)
    case Gemini25FlashLite => Flat(0.10, 0.40, 0.01)
  }

  /** The models in the order the object literal lists them, which is the
      order `Object.keys` returns their keys in. */
  const TableOrder: seq<PricedModel> := [
    Gemini3Pro, Gemini3ProPreview, Gemini3Flash, Gemini3FlashPreview,
    Gemini25Pro, Gemini25Flash, Gemini25FlashLite]

  /** Prompts above this many input tokens are billed at the tier-2 rates. */
  const Threshold: int := 200000

  /** Every model is listed, and no two models share a key. */
  lemma TableComplete(m: PricedModel)
    ensures m in TableOrder
  {
  }

  lemma KeysDistinct(m: PricedModel, n: PricedModel)
    requires Key(m) == Key(n)
    ensures m == n
  {
    assert Key(m)[7] == Key(n)[7] && |Key(m)| == |Key(n)|;
    if |Key(m)| == 14 {
      assert Key(m)[9] == Key(n)[9];
    }
  }

  /** Every rate in the table is non-negative. */
  lemma RatesNonNegative(m: PricedModel)
    ensures var p := PricingOf(m);
      && p.inputPerMillion >= 0.0 && p.outputPerMillion >= 0.0 && p.cachePerMillion >= 0.0
      && (p.inputPerMillionOverThreshold.Some? ==> p.inputPerMillionOverThreshold.value >= 0.0)
      && (p.outputPerMillionOverThreshold.Some? ==> p.outputPerMillionOverThreshold.value >= 0.0)
      && (p.cachePerMillionOverThreshold.Some? ==> p.cachePerMillionOverThreshold.value >= 0.0)
  {
  }

  /** `model.startsWith(p)`. */
  predicate StartsWith(model: string, p: string) {
    |p| <= |model| && model[..|p|] == p
  }

  /** Two keys that a model id starts with and that are equally long are the same. */
  lemma SamePrefix(model: string, p: string, q: string)
    requires StartsWith(model, p) && StartsWith(model, q) && |p| == |q|
    ensures p == q
  {
  }

  /** `Object.keys(GEMINI_PRICING).sort((a, b) => b.length - a.length)`,
      written out: longest key first, and the two keys of equal length
      ("gemini-3-flash" and "gemini-2.5-pro") in their table order, since
      the sort is stable. */
  const SortedTable: seq<PricedModel> := [
    Gemini3FlashPreview, Gemini25FlashLite, Gemini3ProPreview, Gemini25Flash,
    Gemini3Flash, Gemini25Pro, Gemini3Pro]

  /** The sorted table lists every model once, by non-increasing key
      length, and keeps the table order of keys of equal length. */
  lemma SortedTableSorted()
    ensures |SortedTable| == |TableOrder| && forall m: PricedModel :: m in SortedTable
    ensures forall i, j :: 0 <= i < j < |SortedTable| ==> |Key(SortedTable[i])| >= |Key(SortedTable[j])|
    ensures forall i, j :: 0 <= i < j < |SortedTable| && |Key(SortedTable[i])| == |Key(SortedTable[j])| ==>
      SortedTable[i] == TableOrder[2] && SortedTable[j] == TableOrder[4]
  {
    var t := SortedTable;
    var lengths := [22, 21, 20, 16, 14, 14, 12];
    assert forall i :: 0 <= i < 7 ==> |Key(t[i])| == lengths[i];
    forall m: PricedModel ensures m in t {
      match m
      case Gemini3FlashPreview => assert t[0] == m;
      case Gemini25FlashLite => assert t[1] == m;
      case Gemini3ProPreview => assert t[2] == m;
      case Gemini25Flash => assert t[3] == m;
      case Gemini3Flash => assert t[4] == m;
      case Gemini25Pro => assert t[5] == m;
      case Gemini3Pro => assert t[6] == m;
    }
  }

  /** `keys.find(key => model.startsWith(key))`. */
  function FindPrefix(models: seq<PricedModel>, model: string): (r: Option<nat>)
    ensures r.Some? ==> r.value < |models| && StartsWith(model, Key(models[r.value]))
    ensures r.Some? ==> forall i :: 0 <= i < r.value ==> !StartsWith(model, Key(models[i]))
    ensures r.None? ==> forall i :: 0 <= i < |models| ==> !StartsWith(model, Key(models[i]))
  {
    if models == [] then None
    else if StartsWith(model, Key(models[0])) then Some(0)
    else match FindPrefix(models[1..], model)
      case None => None
      case Some(i) => Some(i + 1)
  }

  /** The model whose rates price a model id: the first of the sorted
      table whose key the model id starts with. */
  function BaseModel(model: string): Option<PricedModel> {
    match FindPrefix(SortedTable, model)
    case None => None
    case Some(i) => Some(SortedTable[i])
  }

  /** Searching the table longest key first finds the model with the
      longest key the model id starts with, and none when no key is a
      prefix of it. */
  lemma BaseModelLongestKey(model: string)
    ensures BaseModel(model).None? <==> forall m: PricedModel :: !StartsWith(model, Key(m))
    ensures BaseModel(model).Some? ==> StartsWith(model, Key(BaseModel(model).value))
    ensures BaseModel(model).Some? ==> forall m: PricedModel :: StartsWith(model, Key(m)) ==>
      m == BaseModel(model).value || |Key(m)| < |Key(BaseModel(model).value)|
  {
    SortedTableSorted();
    var t := SortedTable;
    match FindPrefix(t, model)
    case None =>
      forall m: PricedModel ensures !StartsWith(model, Key(m)) {
        assert m in t;
        var i :| 0 <= i < |t| && t[i] == m;
      }
    case Some(i) =>
      forall m: PricedModel | StartsWith(model, Key(m))
        ensures m == t[i] || |Key(m)| < |Key(t[i])|
      {
        assert m in t;
        var j :| 0 <= j < |t| && t[j] == m;
        if |Key(m)| == |Key(t[i])| {
          SamePrefix(model, Key(m), Key(t[i]));
          KeysDistinct(m, t[i]);
        }
      }
  }

  /** No model is found exactly when the model id starts with no key. */
  lemma BaseModelNone(model: string)
    ensures BaseModel(model).None? <==> forall m: PricedModel :: !StartsWith(model, Key(m))
  {
    BaseModelLongestKey(model);
  }

  /** The model found has a key the model id starts with, longer than the
      key of every other model the model id starts with. */
  lemma BaseModelLongest(model: string, m: PricedModel)
    requires StartsWith(model, Key(m))
    ensures BaseModel(model).Some? && StartsWith(model, Key(BaseModel(model).value))
    ensures m == BaseModel(model).value || |Key(m)| < |Key(BaseModel(model).value)|
  {
    BaseModelLongestKey(model);
  }

  /** `(isOverThreshold && over) ? over : base`: an absent tier-2 rate, or
      one of 0 (which is falsy), leaves the base rate. */
  function PickRate(isOverThreshold: bool, over: Option<real>, base: real): real {
    if isOverThreshold && over.Some? && over.value != 0.0 then over.value else base
  }

  /** The input, output and cache rates that apply to a prompt of `inputTokens`. */
  datatype Rates = Rates(input: real, output: real, cache: real)

  function SelectRates(p: ModelPricing, inputTokens: int): (r: Rates)
    ensures inputTokens <= Threshold ==>
      r == Rates(p.inputPerMillion, p.outputPerMillion, p.cachePerMillion)
    ensures (inputTokens > Threshold && p.inputPerMillionOverThreshold.Some?
             && p.inputPerMillionOverThreshold.value != 0.0) ==>
      r.input == p.inputPerMillionOverThreshold.value
    ensures (inputTokens > Threshold && p.outputPerMillionOverThreshold.Some?
             && p.outputPerMillionOverThreshold.value != 0.0) ==>
      r.output == p.outputPerMillionOverThreshold.value
    ensures (inputTokens > Threshold && p.cachePerMillionOverThreshold.Some?
             && p.cachePerMillionOverThreshold.value != 0.0) ==>
      r.cache == p.cachePerMillionOverThreshold.value
    ensures p.inputPerMillionOverThreshold in {None, Some(0.0)} ==> r.input == p.inputPerMillion
    ensures p.outputPerMillionOverThreshold in {None, Some(0.0)} ==> r.output == p.outputPerMillion
    ensures p.cachePerMillionOverThreshold in {None, Some(0.0)} ==> r.cache == p.cachePerMillion
  {
    var isOverThreshold := inputTokens > Threshold;
    Rates(PickRate(isOverThreshold, p.inputPerMillionOverThreshold, p.inputPerMillion),
          PickRate(isOverThreshold, p.outputPerMillionOverThreshold, p.outputPerMillion),
          PickRate(isOverThreshold, p.cachePerMillionOverThreshold, p.cachePerMillion))
  }

  function Max(a: int, b: int): int {
    if a >= b then a else b
  }

  /** What the given token counts cost at the given rates; input tokens
      include the cached ones, which are billed at the cache rate instead. */
  function CostAt(rates: Rates, inputTokens: int, outputTokens: int, cachedTokens: int): real {
    var freshInput := Max(0, inputTokens - cachedTokens);
    (freshInput as real / 1000000.0) * rates.input
      + (outputTokens as real / 1000000.0) * rates.output
      + (cachedTokens as real / 1000000.0) * rates.cache
  }

  lemma MulNonNegative(a: real, b: real)
    requires a >= 0.0 && b >= 0.0
    ensures a * b >= 0.0
  {
  }

  /** Non-negative token counts at non-negative rates cost a non-negative amount. */
  lemma CostNonNegative(rates: Rates, i: int, o: int, c: int)
    requires rates.input >= 0.0 && rates.output >= 0.0 && rates.cache >= 0.0
    requires o >= 0 && c >= 0
    ensures CostAt(rates, i, o, c) >= 0.0
  {
    MulNonNegative(Max(0, i - c) as real / 1000000.0, rates.input);
    MulNonNegative(o as real / 1000000.0, rates.output);
    MulNonNegative(c as real / 1000000.0, rates.cache);
  }

  /** `calculateCost(model, inputTokens, outputTokens, cachedTokens)`. */
  function CalculateCost(model: string, inputTokens: int, outputTokens: int, cachedTokens: int): real {
    match BaseModel(model)
    case None => 0.0
    case Some(m) =>
      CostAt(SelectRates(PricingOf(m), inputTokens), inputTokens, outputTokens, cachedTokens)
  }

  /** The cost of non-negative token counts is never negative. */
  lemma CalculateCostNonNegative(model: string, i: int, o: int, c: int)
    requires o >= 0 && c >= 0
    ensures CalculateCost(model, i, o, c) >= 0.0
  {
    match BaseModel(model)
    case None =>
    case Some(m) =>
      RatesNonNegative(m);
      var rates := SelectRates(PricingOf(m), i);
      assert rates.input >= 0.0 && rates.output >= 0.0 && rates.cache >= 0.0;
      CostNonNegative(rates, i, o, c);
  }

  // ---------------------------------------------------------------------
  // Properties of the cost

  /** A model id that starts with no table key costs nothing. */
  lemma UnknownModelIsFree(model: string, i: int, o: int, c: int)
    requires forall m: PricedModel :: !StartsWith(model, Key(m))
    ensures CalculateCost(model, i, o, c) == 0.0
  {
    BaseModelNone(model);
  }

  /** A model id is billed at the rates its model's table entry gives for the prompt size. */
  lemma PricedUnder(model: string, m: PricedModel, i: int, o: int, c: int)
    requires BaseModel(model) == Some(m)
    ensures CalculateCost(model, i, o, c) == CostAt(SelectRates(PricingOf(m), i), i, o, c)
  {
  }

  /** At or below the threshold every model is billed at its base rates. */
  lemma BaseRatesUpToThreshold(model: string, m: PricedModel, i: int, o: int, c: int)
    requires BaseModel(model) == Some(m) && i <= Threshold
    ensures var p := PricingOf(m);
      CalculateCost(model, i, o, c)
        == CostAt(Rates(p.inputPerMillion, p.outputPerMillion, p.cachePerMillion), i, o, c)
  {
    PricedUnder(model, m, i, o, c);
  }

  /** Above the threshold the tier-2 rates replace the base rates of the
      pro models, which define them. */
  lemma TierTwoAboveThreshold(model: string, m: PricedModel, i: int, o: int, c: int)
    requires BaseModel(model) == Some(m) && i > Threshold
    requires m in {Gemini3Pro, Gemini3ProPreview, Gemini25Pro}
    ensures var p := PricingOf(m);
      CalculateCost(model, i, o, c)
        == CostAt(Rates(p.inputPerMillionOverThreshold.value, p.outputPerMillionOverThreshold.value,
                        p.cachePerMillionOverThreshold.value), i, o, c)
  {
    PricedUnder(model, m, i, o, c);
    var p := PricingOf(m);
    assert SelectRates(p, i) == Rates(p.inputPerMillionOverThreshold.value,
      p.outputPerMillionOverThreshold.value, p.cachePerMillionOverThreshold.value);
  }

  /** The flash models have no tier-2 rates and are billed at their base
      rates for every prompt size. */
  lemma FlashModelsNeverTiered(model: string, m: PricedModel, i: int, o: int, c: int)
    requires BaseModel(model) == Some(m)
    requires m in {Gemini3Flash, Gemini3FlashPreview, Gemini25Flash, Gemini25FlashLite}
    ensures var p := PricingOf(m);
      CalculateCost(model, i, o, c)
        == CostAt(Rates(p.inputPerMillion, p.outputPerMillion, p.cachePerMillion), i, o, c)
  {
    PricedUnder(model, m, i, o, c);
    var p := PricingOf(m);
    assert SelectRates(p, i) == Rates(p.inputPerMillion, p.outputPerMillion, p.cachePerMillion);
  }

  /** Moving `c` of the input tokens into the cache replaces their input
      rate by the cache rate and leaves the rest of the bill alone. */
  lemma CachedBilledAtCacheRate(rates: Rates, i: int, o: int, c: int)
    requires 0 <= c <= i
    ensures CostAt(rates, i, o, c) == CostAt(rates, i, o, 0) - (c as real / 1000000.0) * (rates.input - rates.cache)
  {
  }

  /** A model id that is exactly a key is priced under that key, even
      when a shorter key is a prefix of it too. */
  lemma PricedUnderItself(m: PricedModel)
    ensures BaseModel(Key(m)) == Some(m)
  {
    assert StartsWith(Key(m), Key(m));
    BaseModelLongest(Key(m), m);
  }

  /** "gemini-2.5-flash-lite" starts with "gemini-2.5-flash". */
  lemma FlashIsPrefixOfLite()
    ensures StartsWith(Key(Gemini25FlashLite), Key(Gemini25Flash))
  {
  }

  // The prices of the reference prompts, each from its selected rates.

  lemma FlashLiteRate()
    ensures CostAt(SelectRates(PricingOf(Gemini25FlashLite), 1000000), 1000000, 1000000, 0) == 0.10 + 0.40
  {
    assert SelectRates(PricingOf(Gemini25FlashLite), 1000000) == Rates(0.10, 0.40, 0.01);
  }

  lemma FlashRate()
    ensures CostAt(SelectRates(PricingOf(Gemini25Flash), 1000000), 1000000, 1000000, 0) == 0.30 + 2.50
  {
    assert SelectRates(PricingOf(Gemini25Flash), 1000000) == Rates(0.30, 2.50, 0.03);
  }

  lemma ProRates()
    ensures CostAt(SelectRates(PricingOf(Gemini25Pro), 100000), 100000, 100000, 0) == 1.125
    ensures CostAt(SelectRates(PricingOf(Gemini25Pro), 200000), 200000, 0, 0) == 0.25
    ensures CostAt(SelectRates(PricingOf(Gemini25Pro), 300000), 300000, 100000, 0) == 2.25
  {
    assert SelectRates(PricingOf(Gemini25Pro), 100000) == Rates(1.25, 10.00, 0.125);
    assert SelectRates(PricingOf(Gemini25Pro), 200000) == Rates(1.25, 10.00, 0.125);
    assert SelectRates(PricingOf(Gemini25Pro), 300000) == Rates(2.50, 15.00, 0.25);
  }

  lemma Pro3CachedRate()
    ensures CostAt(SelectRates(PricingOf(Gemini3Pro), 100000), 100000, 0, 50000) == 0.11
  {
    assert SelectRates(PricingOf(Gemini3Pro), 100000) == Rates(2.00, 12.00, 0.20);
  }

  /** The reference model ids are each priced under their own key. */
  lemma ReferenceIds()
    ensures BaseModel("gemini-2.5-flash-lite") == Some(Gemini25FlashLite)
    ensures BaseModel("gemini-2.5-flash") == Some(Gemini25Flash)
  {
    PricedUnderItself(Gemini25FlashLite);
    PricedUnderItself(Gemini25Flash);
  }

  lemma ReferenceProIds()
    ensures BaseModel("gemini-2.5-pro") == Some(Gemini25Pro)
    ensures BaseModel("gemini-3-pro") == Some(Gemini3Pro)
  {
    PricedUnderItself(Gemini25Pro);
    PricedUnderItself(Gemini3Pro);
  }

  /** An id that starts with no key, such as "unknown-model", costs nothing. */
  lemma UnknownReferenceId()
    ensures CalculateCost("unknown-model", 1000, 1000, 0) == 0.0
  {
    var unknown := "unknown-model";
    forall m: PricedModel ensures !StartsWith(unknown, Key(m)) {
      assert Key(m)[0] == 'g';
    }
    UnknownModelIsFree(unknown, 1000, 1000, 0);
  }

  /** A million input and a million output tokens on the two flash
      models: the lite model is cheaper. */
  lemma ReferenceCostsFlash(lite: string, flash: string)
    requires BaseModel(lite) == Some(Gemini25FlashLite) && BaseModel(flash) == Some(Gemini25Flash)
    ensures CalculateCost(lite, 1000000, 1000000, 0) == 0.10 + 0.40
    ensures CalculateCost(flash, 1000000, 1000000, 0) == 0.30 + 2.50
  {
    PricedUnder(lite, Gemini25FlashLite, 1000000, 1000000, 0);
    PricedUnder(flash, Gemini25Flash, 1000000, 1000000, 0);
    FlashLiteRate();
    FlashRate();
  }

  /** gemini-2.5-pro below, at and above the threshold. */
  lemma ReferenceCostsPro(pro: string)
    requires BaseModel(pro) == Some(Gemini25Pro)
    ensures CalculateCost(pro, 100000, 100000, 0) == 1.125
    ensures CalculateCost(pro, 200000, 0, 0) == 0.25
    ensures CalculateCost(pro, 300000, 100000, 0) == 2.25
  {
    PricedUnder(pro, Gemini25Pro, 100000, 100000, 0);
    PricedUnder(pro, Gemini25Pro, 200000, 0, 0);
    PricedUnder(pro, Gemini25Pro, 300000, 100000, 0);
    ProRates();
  }

  /** 100,000 input tokens of which 50,000 are cached, on gemini-3-pro. */
  lemma ReferenceCostCached(pro: string)
    requires BaseModel(pro) == Some(Gemini3Pro)
    ensures CalculateCost(pro, 100000, 0, 50000) == 0.11
  {
    PricedUnder(pro, Gemini3Pro, 100000, 0, 50000);
    Pro3CachedRate();
  }
}
