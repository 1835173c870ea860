/** Hosted pricing: which rates apply to a usage, and what it costs. */
module Pricing {
  import opened GoStrings
  import opened StreamTypes

  const PER_MILLION := 1_000_000
  const MICROS_PER_CENT := 10_000

  type Rate = Option<int>  // micro-dollars per million tokens

  datatype HostedModelPrice = HostedModelPrice(
    promptTierThresholdTokens: Option<int>,
    input: int, longInput: Rate, audioInput: Rate,
    cachedInput: Rate, longCachedInput: Rate, audioCachedInput: Rate,
    cacheWrite5m: Rate,
    output: int, longOutput: Rate, imageOutput: Rate,
    minimumChargeCents: int)

  datatype InputModality = UnsetInput | StandardInput | AudioInput
  datatype OutputModality = UnsetOutput | TextOutput | ImageOutput
  datatype PricingContext = PricingContext(input: InputModality, output: OutputModality)
  datatype PromptTier = StandardTier | LongTier

  datatype SelectedTiers = SelectedTiers(
    inputModality: InputModality, outputModality: OutputModality, promptTier: PromptTier,
    input: int, cachedInput: Rate, cacheWrite: Rate, output: int)

  // ---------- which rates apply ----------

  function Or(override: Rate, rate: Rate): Rate {
    if override.Some? then override else rate
  }

  function OrRate(override: Rate, rate: int): int {
    if override.Some? then override.value else rate
  }

  function When(condition: bool, rate: Rate): Rate {
    if condition then rate else None
  }

  predicate LongPrompt(spec: HostedModelPrice, usage: Usage) {
    spec.promptTierThresholdTokens.Some? && usage.input > spec.promptTierThresholdTokens.value
  }

  /** Each rate is the most specific one the price list has: the modality's before
      the long prompt's before the standard one; cache writes have one rate. */
  function Selected(spec: HostedModelPrice, long: bool, ctx: PricingContext): SelectedTiers {
    var audio, image := ctx.input.AudioInput?, ctx.output.ImageOutput?;
    SelectedTiers(
      if ctx.input.UnsetInput? then StandardInput else ctx.input,
      if ctx.output.UnsetOutput? then TextOutput else ctx.output,
      if long then LongTier else StandardTier,
      OrRate(When(audio, spec.audioInput), OrRate(When(long, spec.longInput), spec.input)),
      Or(When(audio, spec.audioCachedInput), Or(When(long, spec.longCachedInput), spec.cachedInput)),
      spec.cacheWrite5m,
      OrRate(When(image, spec.imageOutput), OrRate(When(long, spec.longOutput), spec.output)))
  }

  /** `selectPricingTiers`. */
  method SelectPricingTiers(spec: HostedModelPrice, usage: Usage, pricingCtx: PricingContext)
    returns (selected: SelectedTiers)
    ensures selected == Selected(spec, LongPrompt(spec, usage), pricingCtx)
  {
    var ctx := pricingCtx;
    if ctx.input.UnsetInput? {
      ctx := ctx.(input := StandardInput);
    }
    if ctx.output.UnsetOutput? {
      ctx := ctx.(output := TextOutput);
    }
    selected := SelectedTiers(
      ctx.input, ctx.output, StandardTier, spec.input, spec.cachedInput, spec.cacheWrite5m, spec.output);
    if spec.promptTierThresholdTokens.Some? && usage.input > spec.promptTierThresholdTokens.value {
      selected := selected.(promptTier := LongTier);
      if spec.longInput.Some? {
        selected := selected.(input := spec.longInput.value);
      }
      if spec.longCachedInput.Some? {
        selected := selected.(cachedInput := spec.longCachedInput);
      }
      if spec.longOutput.Some? {
        selected := selected.(output := spec.longOutput.value);
      }
    }
    if ctx.input.AudioInput? {
      if spec.audioInput.Some? {
        selected := selected.(input := spec.audioInput.value);
      }
      if spec.audioCachedInput.Some? {
        selected := selected.(cachedInput := spec.audioCachedInput);
      }
    }
    if ctx.output.ImageOutput? && spec.imageOutput.Some? {
      selected := selected.(output := spec.imageOutput.value);
    }
  }

  // ---------- what a usage costs ----------

  /** `ceilDiv`. */
  function CeilDiv(numerator: int, denominator: int): int
    requires denominator > 0
  {
    if numerator <= 0 then 0 else (numerator + denominator - 1) / denominator
  }

  function Positive(tokens: Option<int>, rate: Rate): int {
    if tokens.Some? && tokens.value > 0 && rate.Some? then tokens.value else 0
  }

  function RateOf(rate: Rate): int {
    if rate.Some? then rate.value else 0
  }

  /** The four token counts that are charged for. */
  datatype Billed = Billed(uncached: int, cached: int, written: int, output: int)

  function BilledTokens(sel: SelectedTiers, usage: Usage): Billed {
    var cached := Positive(usage.cacheRead, sel.cachedInput);
    var uncached := usage.input - cached;
    Billed(if uncached < 0 then 0 else uncached, cached, Positive(usage.cacheWrite, sel.cacheWrite), usage.output)
  }

  /** The exact cost, in millionths of a micro-dollar. */
  function ExactCost(sel: SelectedTiers, b: Billed): int {
    b.uncached * sel.input + b.cached * RateOf(sel.cachedInput)
    + b.written * RateOf(sel.cacheWrite) + b.output * sel.output
  }

  /** The charged cost in micro-dollars, each of the four parts rounded up. */
  function Micros(sel: SelectedTiers, b: Billed): int {
    CeilDiv(b.uncached * sel.input, PER_MILLION)
    + CeilDiv(b.cached * RateOf(sel.cachedInput), PER_MILLION)
    + CeilDiv(b.written * RateOf(sel.cacheWrite), PER_MILLION)
    + CeilDiv(b.output * sel.output, PER_MILLION)
  }

  function TotalTokens(usage: Usage): int {
    if usage.total == 0 then usage.input + usage.output else usage.total
  }

  /** The billed cents: rounded up, and at least the minimum charge if any token
      was used. */
  function Charge(sel: SelectedTiers, minimum: int, usage: Usage): int {
    var cents := CeilDiv(Micros(sel, BilledTokens(sel, usage)), MICROS_PER_CENT);
    if TotalTokens(usage) > 0 && (cents == 0 || cents < minimum) then minimum else cents
  }

  /** What a usage is charged at the rates that a price list gives it. */
  function ChargeFor(spec: HostedModelPrice, ctx: PricingContext, usage: Usage): int {
    Charge(Selected(spec, LongPrompt(spec, usage), ctx), spec.minimumChargeCents, usage)
  }

  datatype Estimate = Estimate(billedCents: int, selected: SelectedTiers) | NoPrice

  /** `Estimate`: the catalog is keyed by trimmed model names; a missing catalog
      or model is an error. */
  method EstimateUsage(
    catalog: Option<map<Bytes, HostedModelPrice>>, model: Bytes, usage: Usage, pricingCtx: PricingContext)
    returns (e: Estimate)
    ensures e.NoPrice? <==> catalog.None? || TrimSpace(model) !in catalog.value
    ensures e.Estimate? ==>
              var spec := catalog.value[TrimSpace(model)];
              && e.selected == Selected(spec, LongPrompt(spec, usage), pricingCtx)
              && e.billedCents == ChargeFor(spec, pricingCtx, usage)
  {
    if catalog.None? {
      return NoPrice;
    }
    if TrimSpace(model) !in catalog.value {
      return NoPrice;
    }
    var spec := catalog.value[TrimSpace(model)];
    var totalTokens := usage.total;
    if totalTokens == 0 {
      totalTokens := usage.input + usage.output;
    }
    var selected := SelectPricingTiers(spec, usage, pricingCtx);
    hide Selected, LongPrompt, TrimSpace;
    var cacheReadTokens := 0;
    if usage.cacheRead.Some? && usage.cacheRead.value > 0 && selected.cachedInput.Some? {
      cacheReadTokens := usage.cacheRead.value;
    }
    var uncachedInputTokens := usage.input - cacheReadTokens;
    if uncachedInputTokens < 0 {
      uncachedInputTokens := 0;
    }
    ghost var billed := BilledTokens(selected, usage);
    assert billed.uncached == uncachedInputTokens && billed.cached == cacheReadTokens && billed.output == usage.output;
    assert billed.written == Positive(usage.cacheWrite, selected.cacheWrite);
    hide BilledTokens;
    var totalMicros := CeilDiv(uncachedInputTokens * selected.input, PER_MILLION);
    if selected.cachedInput.Some? && cacheReadTokens > 0 {
      totalMicros := totalMicros + CeilDiv(cacheReadTokens * selected.cachedInput.value, PER_MILLION);
    } else {
      NothingCosts(RateOf(selected.cachedInput));
    }
    if usage.cacheWrite.Some? && usage.cacheWrite.value > 0 && selected.cacheWrite.Some? {
      totalMicros := totalMicros + CeilDiv(usage.cacheWrite.value * selected.cacheWrite.value, PER_MILLION);
    } else {
      NothingCosts(RateOf(selected.cacheWrite));
    }
    totalMicros := totalMicros + CeilDiv(usage.output * selected.output, PER_MILLION);
    assert totalMicros == Micros(selected, billed);
    hide Micros, CeilDiv;
    var cents := CeilDiv(totalMicros, MICROS_PER_CENT);
    if cents == 0 && totalTokens > 0 {
      cents := spec.minimumChargeCents;
    }
    if cents < spec.minimumChargeCents && totalTokens > 0 {
      cents := spec.minimumChargeCents;
    }
    e := Estimate(cents, selected);
  }

  lemma NothingCosts(rate: int)
    ensures CeilDiv(0 * rate, PER_MILLION) == 0
  {
  }
}
