/** Which rates of a price list a request is charged at: which ones can change its
    charge at all, and what the charge is at the ones that apply. */
module PricingSelection {
  import opened StreamTypes
  import opened Pricing

  predicate Above(threshold: Option<int>, usage: Usage) {
    threshold.Some? && usage.input > threshold.value
  }

  // ---------- rates that do not matter ----------

  /** Without audio input the audio rates are never charged. */
  lemma AudioRatesAreForAudio(spec: HostedModelPrice, ctx: PricingContext, usage: Usage, input: Rate, cached: Rate)
    requires !ctx.input.AudioInput?
    ensures ChargeFor(spec.(audioInput := input, audioCachedInput := cached), ctx, usage) == ChargeFor(spec, ctx, usage)
  {
  }

  /** Without image output the image rate is never charged. */
  lemma ImageRateIsForImages(spec: HostedModelPrice, ctx: PricingContext, usage: Usage, output: Rate)
    requires !ctx.output.ImageOutput?
    ensures ChargeFor(spec.(imageOutput := output), ctx, usage) == ChargeFor(spec, ctx, usage)
  {
  }

  /** Up to the threshold the rates of long prompts are never charged. */
  lemma LongRatesAreForLongPrompts(
    spec: HostedModelPrice, ctx: PricingContext, usage: Usage, input: Rate, cached: Rate, output: Rate)
    requires !Above(spec.promptTierThresholdTokens, usage)
    ensures ChargeFor(spec.(longInput := input, longCachedInput := cached, longOutput := output), ctx, usage) ==
            ChargeFor(spec, ctx, usage)
  {
  }

  /** Where the modality has a rate of its own, neither the standard rate nor the
      one of long prompts is charged. */
  lemma ModalityRatesComeFirst(
    spec: HostedModelPrice, ctx: PricingContext, usage: Usage, standard: int, cached: Rate, long: Rate)
    ensures ctx.input.AudioInput? && spec.audioInput.Some? ==>
              ChargeFor(spec.(input := standard, longInput := long), ctx, usage) == ChargeFor(spec, ctx, usage)
    ensures ctx.input.AudioInput? && spec.audioCachedInput.Some? ==>
              ChargeFor(spec.(cachedInput := cached, longCachedInput := long), ctx, usage) ==
              ChargeFor(spec, ctx, usage)
    ensures ctx.output.ImageOutput? && spec.imageOutput.Some? ==>
              ChargeFor(spec.(output := standard, longOutput := long), ctx, usage) == ChargeFor(spec, ctx, usage)
  {
    hide Charge;
  }

  /** Above the threshold a rate of long prompts replaces the standard one. */
  lemma LongRatesReplaceStandardOnes(
    spec: HostedModelPrice, ctx: PricingContext, usage: Usage, standard: int, cached: Rate)
    requires Above(spec.promptTierThresholdTokens, usage)
    ensures spec.longInput.Some? ==> ChargeFor(spec.(input := standard), ctx, usage) == ChargeFor(spec, ctx, usage)
    ensures spec.longCachedInput.Some? ==>
              ChargeFor(spec.(cachedInput := cached), ctx, usage) == ChargeFor(spec, ctx, usage)
    ensures spec.longOutput.Some? ==> ChargeFor(spec.(output := standard), ctx, usage) == ChargeFor(spec, ctx, usage)
  {
    hide Charge;
  }

  // ---------- the charge ----------

  /** One rate for each kind of token; none for kinds that are not charged for. */
  datatype Rates = Rates(input: int, cached: Rate, written: Rate, output: int)

  /** The rates of a price list that apply to a request. */
  predicate Apply(rates: Rates, spec: HostedModelPrice, ctx: PricingContext, usage: Usage) {
    var long := Above(spec.promptTierThresholdTokens, usage);
    && (ctx.input == AudioInput && spec.audioInput != None ==> Some(rates.input) == spec.audioInput)
    && (!(ctx.input == AudioInput && spec.audioInput != None) && long && spec.longInput != None ==>
          Some(rates.input) == spec.longInput)
    && (!(ctx.input == AudioInput && spec.audioInput != None) && !(long && spec.longInput != None) ==>
          rates.input == spec.input)
    && (ctx.input == AudioInput && spec.audioCachedInput != None ==> rates.cached == spec.audioCachedInput)
    && (!(ctx.input == AudioInput && spec.audioCachedInput != None) && long && spec.longCachedInput != None ==>
          rates.cached == spec.longCachedInput)
    && (!(ctx.input == AudioInput && spec.audioCachedInput != None) && !(long && spec.longCachedInput != None) ==>
          rates.cached == spec.cachedInput)
    && rates.written == spec.cacheWrite5m
    && (ctx.output == ImageOutput && spec.imageOutput != None ==> Some(rates.output) == spec.imageOutput)
    && (!(ctx.output == ImageOutput && spec.imageOutput != None) && long && spec.longOutput != None ==>
          Some(rates.output) == spec.longOutput)
    && (!(ctx.output == ImageOutput && spec.imageOutput != None) && !(long && spec.longOutput != None) ==>
          rates.output == spec.output)
  }

  /** `n` is the least number of units of size `d` that cover `x`. */
  predicate RoundsUp(x: int, d: nat, n: int) {
    if x <= 0 then n == 0 else (n - 1) * d < x <= n * d
  }

  /** `n` tokens cost `micros` micro-dollars at a rate for a million of them. */
  predicate Costs(n: int, rate: int, micros: int) {
    RoundsUp(n * rate, 1_000_000, micros)
  }

  /** The tokens of one kind that a usage may leave out: charged for if there are
      any and there is a rate for them. */
  predicate OptionalCosts(tokens: Option<int>, rate: Rate, counted: int, micros: int) {
    match (tokens, rate)
    case (Some(n), Some(r)) =>
      if n > 0 then counted == n && Costs(n, r, micros) else counted == 0 && micros == 0
    case _ => counted == 0 && micros == 0
  }

  datatype Bill = Bill(cached: int, uncached: int, inputMicros: int, cachedMicros: int, writtenMicros: int,
                       outputMicros: int, written: int, cents: int)

  /** What is written down for a request: input that was read from a cache is not
      charged again as fresh input, and every part is rounded up. */
  predicate Itemized(bill: Bill, rates: Rates, usage: Usage) {
    && OptionalCosts(usage.cacheRead, rates.cached, bill.cached, bill.cachedMicros)
    && (if bill.cached <= usage.input then bill.cached + bill.uncached == usage.input else bill.uncached == 0)
    && Costs(bill.uncached, rates.input, bill.inputMicros)
    && OptionalCosts(usage.cacheWrite, rates.written, bill.written, bill.writtenMicros)
    && Costs(usage.output, rates.output, bill.outputMicros)
    && RoundsUp(bill.inputMicros + bill.cachedMicros + bill.writtenMicros + bill.outputMicros, 10_000, bill.cents)
  }

  predicate AnyTokens(usage: Usage) {
    usage.total > 0 || (usage.total == 0 && usage.input + usage.output > 0)
  }

  lemma CeilRoundsUp(x: int, d: nat)
    requires d > 0
    ensures RoundsUp(x, d, CeilDiv(x, d))
  {
    if x > 0 {
      var n := (x + d - 1) / d;
      assert n * d + (x + d - 1) % d == x + d - 1;
      assert (n - 1) * d == n * d - d;
    }
  }

  lemma PositiveCosts(tokens: Option<int>, rate: Rate)
    ensures var n := Positive(tokens, rate); OptionalCosts(tokens, rate, n, CeilDiv(n * RateOf(rate), PER_MILLION))
  {
    var n := Positive(tokens, rate);
    CeilRoundsUp(n * RateOf(rate), PER_MILLION);
    if n == 0 {
      NothingCosts(RateOf(rate));
    }
    hide CeilDiv, RoundsUp;
  }

  lemma SelectedApply(rates: Rates, spec: HostedModelPrice, ctx: PricingContext, usage: Usage)
    requires Apply(rates, spec, ctx, usage)
    ensures var sel := Selected(spec, LongPrompt(spec, usage), ctx);
            && rates == Rates(sel.input, sel.cachedInput, sel.cacheWrite, sel.output)
            && sel.inputModality == (if ctx.input == UnsetInput then StandardInput else ctx.input)
            && sel.outputModality == (if ctx.output == UnsetOutput then TextOutput else ctx.output)
            && sel.promptTier == (if Above(spec.promptTierThresholdTokens, usage) then LongTier else StandardTier)
  {
  }

  /** The charge at the rates that apply: fresh input, input read from a cache,
      cache writes and output each at its one rate and each rounded up to a
      micro-dollar, then to a cent, and never less than the minimum charge for a
      request with tokens.  The rates, modalities and tier written down with the
      charge are the ones it was made at. */
  lemma ChargeAtTheRatesThatApply(rates: Rates, spec: HostedModelPrice, ctx: PricingContext, usage: Usage)
    returns (bill: Bill)
    requires Apply(rates, spec, ctx, usage)
    ensures Itemized(bill, rates, usage)
    ensures ChargeFor(spec, ctx, usage) ==
            if AnyTokens(usage) && (bill.cents == 0 || bill.cents < spec.minimumChargeCents)
            then spec.minimumChargeCents else bill.cents
    ensures var sel := Selected(spec, LongPrompt(spec, usage), ctx);
            && rates == Rates(sel.input, sel.cachedInput, sel.cacheWrite, sel.output)
            && sel.inputModality == (if ctx.input == UnsetInput then StandardInput else ctx.input)
            && sel.outputModality == (if ctx.output == UnsetOutput then TextOutput else ctx.output)
            && sel.promptTier == (if Above(spec.promptTierThresholdTokens, usage) then LongTier else StandardTier)
  {
    hide Apply, CeilDiv, RoundsUp, Selected, LongPrompt, OptionalCosts, Positive;
    SelectedApply(rates, spec, ctx, usage);
    var sel := Selected(spec, LongPrompt(spec, usage), ctx);
    var b := BilledTokens(sel, usage);
    PositiveCosts(usage.cacheRead, sel.cachedInput);
    PositiveCosts(usage.cacheWrite, sel.cacheWrite);
    CeilRoundsUp(b.uncached * sel.input, PER_MILLION);
    CeilRoundsUp(b.output * sel.output, PER_MILLION);
    CeilRoundsUp(Micros(sel, b), MICROS_PER_CENT);
    bill := Bill(
      b.cached, b.uncached, CeilDiv(b.uncached * sel.input, PER_MILLION),
      CeilDiv(b.cached * RateOf(sel.cachedInput), PER_MILLION),
      CeilDiv(b.written * RateOf(sel.cacheWrite), PER_MILLION),
      CeilDiv(b.output * sel.output, PER_MILLION), b.written, CeilDiv(Micros(sel, b), MICROS_PER_CENT));
  }

  lemma Scaled(a: int, b: int, d: nat)
    ensures a <= b ==> a * d <= b * d
  {
  }

  lemma RoundsUpOnce(x: int, d: nat, m: int, n: int)
    requires d > 0 && RoundsUp(x, d, m) && RoundsUp(x, d, n)
    ensures m == n
  {
    Scaled(m, n - 1, d);
    Scaled(n, m - 1, d);
  }

  lemma OptionalCostsOnce(tokens: Option<int>, rate: Rate, m: int, x: int, n: int, y: int)
    requires OptionalCosts(tokens, rate, m, x) && OptionalCosts(tokens, rate, n, y)
    ensures m == n && x == y
  {
    if tokens.Some? && rate.Some? && tokens.value > 0 {
      RoundsUpOnce(tokens.value * rate.value, 1_000_000, x, y);
    }
    hide RoundsUp;
  }

  /** There is one such bill, so it settles the charge: two requests with equal
      rates, usage and minimum charge are charged alike, whatever else differs. */
  lemma {:induction false} EqualRatesEqualCharge(
    rates: Rates, usage: Usage, spec: HostedModelPrice, ctx: PricingContext,
    other: HostedModelPrice, otherCtx: PricingContext)
    requires Apply(rates, spec, ctx, usage) && Apply(rates, other, otherCtx, usage)
    requires spec.minimumChargeCents == other.minimumChargeCents
    ensures ChargeFor(spec, ctx, usage) == ChargeFor(other, otherCtx, usage)
  {
    hide Apply, RoundsUp, OptionalCosts, ChargeFor, Selected, LongPrompt;
    var a := ChargeAtTheRatesThatApply(rates, spec, ctx, usage);
    var b := ChargeAtTheRatesThatApply(rates, other, otherCtx, usage);
    OptionalCostsOnce(usage.cacheRead, rates.cached, a.cached, a.cachedMicros, b.cached, b.cachedMicros);
    OptionalCostsOnce(usage.cacheWrite, rates.written, a.written, a.writtenMicros, b.written, b.writtenMicros);
    RoundsUpOnce(a.uncached * rates.input, 1_000_000, a.inputMicros, b.inputMicros);
    RoundsUpOnce(usage.output * rates.output, 1_000_000, a.outputMicros, b.outputMicros);
    RoundsUpOnce(
      a.inputMicros + a.cachedMicros + a.writtenMicros + a.outputMicros, 10_000, a.cents, b.cents);
  }
}
