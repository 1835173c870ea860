/** Billing is accurate, cannot be undercut by merging requests, and stays within
    64-bit integers. */
module PricingProperties {
  import opened StreamTypes
  import opened Pricing

  predicate NonNegative(o: Option<int>) {
    o.Some? ==> o.value >= 0
  }

  predicate ValidUsage(u: Usage) {
    u.input >= 0 && u.output >= 0 && u.total >= 0 && NonNegative(u.cacheRead) && NonNegative(u.cacheWrite)
  }

  predicate ValidRates(sel: SelectedTiers) {
    sel.input >= 0 && sel.output >= 0 && NonNegative(sel.cachedInput) && NonNegative(sel.cacheWrite)
  }

  // ---------- rounding ----------

  lemma RoundedPart(tokens: int, rate: int)
    requires tokens >= 0 && rate >= 0
    ensures var c := CeilDiv(tokens * rate, PER_MILLION);
            0 <= c && tokens * rate <= c * PER_MILLION < tokens * rate + PER_MILLION
  {
    assert tokens * rate >= 0;
  }

  lemma MicrosAreTight(sel: SelectedTiers, b: Billed)
    requires ValidRates(sel) && b.uncached >= 0 && b.cached >= 0 && b.written >= 0 && b.output >= 0
    ensures 0 <= Micros(sel, b) && 0 <= ExactCost(sel, b)
    ensures ExactCost(sel, b) <= Micros(sel, b) * PER_MILLION < ExactCost(sel, b) + 4 * PER_MILLION
  {
    hide CeilDiv;
    RoundedPart(b.uncached, sel.input);
    RoundedPart(b.cached, RateOf(sel.cachedInput));
    RoundedPart(b.written, RateOf(sel.cacheWrite));
    RoundedPart(b.output, sel.output);
  }

  /** Billing accuracy: the billed cents never undercharge the exact cost, unless
      a negative minimum charge replaces a cost of nothing; and where the minimum
      charge was not applied they exceed it by less than one cent and four
      micro-dollars. */
  lemma {:induction false} ChargeIsAccurate(sel: SelectedTiers, minimum: int, usage: Usage)
    requires ValidUsage(usage) && ValidRates(sel)
    ensures var cents, exact := Charge(sel, minimum, usage), ExactCost(sel, BilledTokens(sel, usage));
            && (exact <= cents * MICROS_PER_CENT * PER_MILLION <==>
                  minimum >= 0 || exact > 0 || TotalTokens(usage) == 0)
            && (TotalTokens(usage) > 0 ==> cents >= minimum)
            && (cents != minimum || TotalTokens(usage) == 0 ==>
                  cents * MICROS_PER_CENT * PER_MILLION < exact + (MICROS_PER_CENT + 4) * PER_MILLION)
  {
    MicrosAreTight(sel, BilledTokens(sel, usage));
    RoundedCents(Micros(sel, BilledTokens(sel, usage)));
    hide Micros, ExactCost, BilledTokens, CeilDiv;
  }

  lemma RoundedCents(micros: int)
    requires micros >= 0
    ensures var c := CeilDiv(micros, MICROS_PER_CENT);
            0 <= c && micros <= c * MICROS_PER_CENT < micros + MICROS_PER_CENT
  {
  }

  // ---------- merging requests ----------

  lemma CeilSubadditive(x: int, y: int, z: int, d: int)
    requires 0 <= x && 0 <= y && z <= x + y && d in {PER_MILLION, MICROS_PER_CENT}
    ensures CeilDiv(z, d) <= CeilDiv(x, d) + CeilDiv(y, d)
  {
  }

  lemma PartSubadditive(a: int, b: int, c: int, rate: int)
    requires 0 <= a && 0 <= b && c <= a + b && 0 <= rate
    ensures CeilDiv(c * rate, PER_MILLION) <= CeilDiv(a * rate, PER_MILLION) + CeilDiv(b * rate, PER_MILLION)
  {
    assert c * rate <= (a + b) * rate == a * rate + b * rate;
    assert 0 <= a * rate && 0 <= b * rate;
    CeilSubadditive(a * rate, b * rate, c * rate, PER_MILLION);
  }

  /** Merging two usages bills no more tokens of any kind than both: the clamp on
      uncached input only helps. */
  lemma {:induction false} MergedTokens(sel: SelectedTiers, a: Usage, b: Usage)
    requires ValidUsage(a) && ValidUsage(b)
    ensures var x, y, z := BilledTokens(sel, a), BilledTokens(sel, b), BilledTokens(sel, Add(a, b));
            && 0 <= x.uncached && 0 <= y.uncached && 0 <= z.uncached <= x.uncached + y.uncached
            && 0 <= x.cached && 0 <= y.cached && z.cached == x.cached + y.cached
            && 0 <= x.written && 0 <= y.written && z.written == x.written + y.written
            && 0 <= x.output && 0 <= y.output && z.output == x.output + y.output
  {
  }

  lemma MergedMicros(sel: SelectedTiers, a: Usage, b: Usage)
    requires ValidUsage(a) && ValidUsage(b) && ValidRates(sel)
    ensures Micros(sel, BilledTokens(sel, Add(a, b))) <=
            Micros(sel, BilledTokens(sel, a)) + Micros(sel, BilledTokens(sel, b))
  {
    MergedTokens(sel, a, b);
    hide CeilDiv, BilledTokens, Add;
    var x, y, z := BilledTokens(sel, a), BilledTokens(sel, b), BilledTokens(sel, Add(a, b));
    PartSubadditive(x.uncached, y.uncached, z.uncached, sel.input);
    PartSubadditive(x.cached, y.cached, z.cached, RateOf(sel.cachedInput));
    PartSubadditive(x.written, y.written, z.written, RateOf(sel.cacheWrite));
    PartSubadditive(x.output, y.output, z.output, sel.output);
  }

  /** No split discount: at the same rates, one request for the combined usage
      never costs more than the two requests, through all five roundings, the
      cache clamp and the minimum charge. */
  lemma {:induction false} MergingNeverCostsMore(sel: SelectedTiers, minimum: nat, a: Usage, b: Usage)
    requires ValidUsage(a) && ValidUsage(b) && ValidRates(sel)
    ensures Charge(sel, minimum, Add(a, b)) <= Charge(sel, minimum, a) + Charge(sel, minimum, b)
  {
    MergedMicros(sel, a, b);
    BilledParts(sel, a);
    BilledParts(sel, b);
    MicrosAreTight(sel, BilledTokens(sel, a));
    MicrosAreTight(sel, BilledTokens(sel, b));
    var x, y := Micros(sel, BilledTokens(sel, a)), Micros(sel, BilledTokens(sel, b));
    var z := Micros(sel, BilledTokens(sel, Add(a, b)));
    CeilSubadditive(x, y, z, MICROS_PER_CENT);
    hide Micros, BilledTokens;
  }

  lemma BilledParts(sel: SelectedTiers, a: Usage)
    requires ValidUsage(a)
    ensures var b := BilledTokens(sel, a); b.uncached >= 0 && b.cached >= 0 && b.written >= 0 && b.output >= 0
  {
  }

  // ---------- prompt tiers ----------

  predicate ValidSpec(spec: HostedModelPrice) {
    && spec.input >= 0 && NonNegative(spec.longInput) && NonNegative(spec.audioInput)
    && NonNegative(spec.cachedInput) && NonNegative(spec.longCachedInput) && NonNegative(spec.audioCachedInput)
    && NonNegative(spec.cacheWrite5m)
    && spec.output >= 0 && NonNegative(spec.longOutput) && NonNegative(spec.imageOutput)
    && spec.minimumChargeCents >= 0
  }

  predicate OverThreshold(threshold: Option<int>, usage: Usage) {
    threshold.Some? && usage.input > threshold.value
  }

  /** Without tokens whose rate depends on the prompt tier. */
  predicate Untiered(usage: Usage) {
    usage.input == 0 && usage.output == 0 && !(usage.cacheRead.Some? && usage.cacheRead.value > 0)
  }

  /** Merging does not lift tokens into the long tier that were not in it. */
  predicate NoCrossing(threshold: Option<int>, a: Usage, b: Usage) {
    OverThreshold(threshold, Add(a, b)) ==>
      && (OverThreshold(threshold, a) || Untiered(a))
      && (OverThreshold(threshold, b) || Untiered(b))
  }

  /** Whatever the rates are, merging costs no more. */
  ghost predicate NeverDearer(threshold: Option<int>, a: Usage, b: Usage) {
    forall spec, ctx :: ValidSpec(spec) && spec.promptTierThresholdTokens == threshold ==>
      ChargeFor(spec, ctx, Add(a, b)) <= ChargeFor(spec, ctx, a) + ChargeFor(spec, ctx, b)
  }

  lemma UntieredCharge(spec: HostedModelPrice, ctx: PricingContext, usage: Usage)
    requires Untiered(usage)
    ensures Charge(Selected(spec, true, ctx), spec.minimumChargeCents, usage) ==
            Charge(Selected(spec, false, ctx), spec.minimumChargeCents, usage)
  {
    var long, standard := Selected(spec, true, ctx), Selected(spec, false, ctx);
    assert long.cacheWrite == standard.cacheWrite;
    assert BilledTokens(long, usage) == BilledTokens(standard, usage);
    var b := BilledTokens(long, usage);
    assert b.uncached == 0 && b.cached == 0 && b.output == 0;
    hide Selected, BilledTokens;
    NothingCosts(long.input);
    NothingCosts(standard.input);
    NothingCosts(RateOf(long.cachedInput));
    NothingCosts(RateOf(standard.cachedInput));
    NothingCosts(long.output);
    NothingCosts(standard.output);
    hide CeilDiv;
    assert Micros(long, b) == Micros(standard, b);
  }

  lemma SelectedIsValid(spec: HostedModelPrice, long: bool, ctx: PricingContext)
    requires ValidSpec(spec)
    ensures ValidRates(Selected(spec, long, ctx))
  {
  }

  /** At any valid rates, merging that lifts nothing into the long tier costs no
      more, through all five roundings, the cache clamp and the minimum charge. */
  lemma {:induction false} MergingInATierNeverCostsMore(spec: HostedModelPrice, ctx: PricingContext, a: Usage, b: Usage)
    requires ValidSpec(spec) && ValidUsage(a) && ValidUsage(b)
    requires NoCrossing(spec.promptTierThresholdTokens, a, b)
    ensures ChargeFor(spec, ctx, Add(a, b)) <= ChargeFor(spec, ctx, a) + ChargeFor(spec, ctx, b)
  {
    var long := LongPrompt(spec, Add(a, b));
    SelectedIsValid(spec, long, ctx);
    MergingNeverCostsMore(Selected(spec, long, ctx), spec.minimumChargeCents, a, b);
    if long {
      if Untiered(a) {
        UntieredCharge(spec, ctx, a);
      }
      if Untiered(b) {
        UntieredCharge(spec, ctx, b);
      }
    }
    hide Charge, Selected;
  }

  const CENT_PER_TOKEN := 10_000_000_000

  lemma WholeCents(sel: SelectedTiers, usage: Usage, n: nat)
    requires Micros(sel, BilledTokens(sel, usage)) == n * MICROS_PER_CENT
    ensures Charge(sel, 0, usage) == n
  {
    hide Micros, BilledTokens;
  }

  lemma TimesNothing(n: int)
    ensures CeilDiv(n * 0, PER_MILLION) == 0
  {
  }

  lemma TimesCent(n: nat)
    ensures CeilDiv(n * CENT_PER_TOKEN, PER_MILLION) == n * MICROS_PER_CENT
  {
  }

  /** Price lists on which one kind of token costs a cent in the long tier and
      everything else is free. */
  datatype Kind = InputTokens | CachedTokens | OutputTokens

  function OnlyLong(threshold: Option<int>, kind: Kind): HostedModelPrice {
    HostedModelPrice(
      threshold,
      0, if kind.InputTokens? then Some(CENT_PER_TOKEN) else None, None,
      if kind.CachedTokens? then Some(0) else None, if kind.CachedTokens? then Some(CENT_PER_TOKEN) else None, None,
      None,
      0, if kind.OutputTokens? then Some(CENT_PER_TOKEN) else None, None,
      0)
  }

  function TokensOf(kind: Kind, usage: Usage): int {
    match kind
    case InputTokens => usage.input
    case CachedTokens => if usage.cacheRead.Some? && usage.cacheRead.value > 0 then usage.cacheRead.value else 0
    case OutputTokens => usage.output
  }

  const PLAIN := PricingContext(UnsetInput, UnsetOutput)

  lemma OnlyLongCharge(threshold: Option<int>, kind: Kind, long: bool, usage: Usage)
    requires ValidUsage(usage)
    ensures Charge(Selected(OnlyLong(threshold, kind), long, PLAIN), 0, usage) ==
            if long then TokensOf(kind, usage) else 0
  {
    var sel := Selected(OnlyLong(threshold, kind), long, PLAIN);
    var b := BilledTokens(sel, usage);
    var n := if long then TokensOf(kind, usage) else 0;
    TimesNothing(b.uncached);
    TimesNothing(b.cached);
    TimesNothing(b.written);
    TimesNothing(b.output);
    TimesCent(TokensOf(kind, usage));
    assert sel.cacheWrite == None && RateOf(sel.cacheWrite) == 0;
    match kind {
      case InputTokens => assert b.uncached == usage.input && RateOf(sel.cachedInput) == 0 && sel.output == 0;
      case CachedTokens => assert b.cached == TokensOf(kind, usage) && sel.input == 0 && sel.output == 0;
      case OutputTokens => assert b.output == usage.output && sel.input == 0 && RateOf(sel.cachedInput) == 0;
    }
    hide CeilDiv, Selected, BilledTokens;
    assert Micros(sel, b) == n * MICROS_PER_CENT;
    WholeCents(sel, usage, n);
  }

  /** Lifting a part with tiered tokens into the long tier is dearer at some rates. */
  lemma LiftingIsDearer(threshold: Option<int>, part: Usage, other: Usage) returns (spec: HostedModelPrice)
    requires ValidUsage(part) && ValidUsage(other)
    requires OverThreshold(threshold, Add(part, other)) && !OverThreshold(threshold, part) && !Untiered(part)
    ensures ValidSpec(spec) && spec.promptTierThresholdTokens == threshold
    ensures ChargeFor(spec, PLAIN, Add(part, other)) > ChargeFor(spec, PLAIN, part) + ChargeFor(spec, PLAIN, other)
  {
    var kind :=
      if part.input > 0 then InputTokens else if part.output > 0 then OutputTokens else CachedTokens;
    spec := OnlyLong(threshold, kind);
    var merged := Add(part, other);
    assert TokensOf(kind, merged) == TokensOf(kind, part) + TokensOf(kind, other) && TokensOf(kind, part) > 0;
    assert ValidUsage(merged);
    OnlyLongCharge(threshold, kind, true, merged);
    OnlyLongCharge(threshold, kind, false, part);
    OnlyLongCharge(threshold, kind, OverThreshold(threshold, other), other);
    hide Charge, Selected, Add;
  }

  lemma AddCommutes(a: Usage, b: Usage)
    ensures Add(a, b) == Add(b, a)
  {
  }

  /** No split discount, exactly: merging two requests never costs more, whatever
      the rates are, if and only if it lifts no tokens into the long prompt tier
      that were not in it. */
  lemma {:induction false} MergingNeverDearerIff(threshold: Option<int>, a: Usage, b: Usage)
    requires ValidUsage(a) && ValidUsage(b)
    ensures NeverDearer(threshold, a, b) <==> NoCrossing(threshold, a, b)
  {
    hide ChargeFor, ValidSpec, Untiered;
    if NoCrossing(threshold, a, b) {
      forall spec, ctx | ValidSpec(spec) && spec.promptTierThresholdTokens == threshold
        ensures ChargeFor(spec, ctx, Add(a, b)) <= ChargeFor(spec, ctx, a) + ChargeFor(spec, ctx, b)
      {
        MergingInATierNeverCostsMore(spec, ctx, a, b);
      }
    } else if !OverThreshold(threshold, a) && !Untiered(a) {
      var spec := LiftingIsDearer(threshold, a, b);
    } else {
      AddCommutes(a, b);
      var spec := LiftingIsDearer(threshold, b, a);
    }
  }

  lemma InputOnlyCharge(sel: SelectedTiers, minimum: nat, n: nat, micros: nat)
    requires n > 0 && n * sel.input == micros * PER_MILLION && micros >= MICROS_PER_CENT * minimum && micros > 0
    ensures Charge(sel, minimum, Usage(n, 0, n, None, None)) == (micros + MICROS_PER_CENT - 1) / MICROS_PER_CENT
  {
    var usage := Usage(n, 0, n, None, None);
    assert BilledTokens(sel, usage) == Billed(n, 0, 0, 0);
    hide BilledTokens;
    NothingCosts(RateOf(sel.cachedInput));
    NothingCosts(RateOf(sel.cacheWrite));
    NothingCosts(sel.output);
    assert CeilDiv(n * sel.input, PER_MILLION) == micros;
    hide CeilDiv;
    assert Micros(sel, Billed(n, 0, 0, 0)) == micros;
  }

  const TIERED := HostedModelPrice(
    Some(200_000), 1_250_000, Some(2_500_000), None, None, None, None, None, 10_000_000, None, None, 1)

  function TieredCharge(usage: Usage): int {
    Charge(Selected(TIERED, LongPrompt(TIERED, usage), PricingContext(UnsetInput, UnsetOutput)), 1, usage)
  }

  /** An instance: the two halves stay below the threshold, their sum does not, and
      costs more. */
  lemma {:induction false} CrossingATierCostsMore()
    ensures var half := Usage(150_000, 0, 150_000, None, None);
            TieredCharge(Add(half, half)) > TieredCharge(half) + TieredCharge(half)
  {
    hide Charge;
    var ctx := PricingContext(UnsetInput, UnsetOutput);
    assert Selected(TIERED, false, ctx).input == 1_250_000 && Selected(TIERED, true, ctx).input == 2_500_000;
    InputOnlyCharge(Selected(TIERED, false, ctx), 1, 150_000, 187_500);
    InputOnlyCharge(Selected(TIERED, true, ctx), 1, 300_000, 750_000);
    var half := Usage(150_000, 0, 150_000, None, None);
    assert Add(half, half) == Usage(300_000, 0, 300_000, None, None);
  }

  // ---------- machine integers ----------

  const MIN_INT64 := -0x8000_0000_0000_0000
  const TWO_64 := 0x1_0000_0000_0000_0000

  /** Two's complement 64-bit arithmetic. */
  function Wrap(x: int): int {
    (x - MIN_INT64) % TWO_64 + MIN_INT64
  }

  function CeilDiv64(numerator: int, denominator: int): int
    requires denominator > 0
  {
    if numerator <= 0 then 0 else Wrap(Wrap(numerator + denominator) - 1) / denominator
  }

  /** `Charge` as the machine computes it: every sum, difference and product wraps. */
  function Charge64(sel: SelectedTiers, minimum: int, usage: Usage): int {
    var total := if usage.total == 0 then Wrap(usage.input + usage.output) else usage.total;
    var cached := Positive(usage.cacheRead, sel.cachedInput);
    var difference := Wrap(usage.input - cached);
    var uncached := if difference < 0 then 0 else difference;
    var m0 := CeilDiv64(Wrap(uncached * sel.input), PER_MILLION);
    var m1 := Wrap(m0 + CeilDiv64(Wrap(cached * RateOf(sel.cachedInput)), PER_MILLION));
    var written := Positive(usage.cacheWrite, sel.cacheWrite);
    var m2 := Wrap(m1 + CeilDiv64(Wrap(written * RateOf(sel.cacheWrite)), PER_MILLION));
    var m3 := Wrap(m2 + CeilDiv64(Wrap(usage.output * sel.output), PER_MILLION));
    var cents := CeilDiv64(m3, MICROS_PER_CENT);
    if total > 0 && (cents == 0 || cents < minimum) then minimum else cents
  }

  const MAX_TOKENS := 1_000_000_000
  const MAX_RATE := 600_000_000

  predicate UpTo(o: Option<int>, bound: int) {
    o.Some? ==> o.value <= bound
  }

  lemma WrapIsIdentity(x: int)
    requires MIN_INT64 <= x < MIN_INT64 + TWO_64
    ensures Wrap(x) == x
  {
  }

  lemma ProductFits(tokens: int, rate: int)
    requires 0 <= tokens <= MAX_TOKENS && 0 <= rate <= MAX_RATE
    ensures CeilDiv64(Wrap(tokens * rate), PER_MILLION) == CeilDiv(tokens * rate, PER_MILLION) <= 600_000_000_000
    ensures 0 <= CeilDiv(tokens * rate, PER_MILLION) && CeilDivFits(tokens * rate, PER_MILLION)
  {
    hide Wrap, CeilDiv, CeilDiv64;
    ProductIsBounded(tokens, rate);
    CeilFits(tokens * rate);
  }

  lemma ProductIsBounded(tokens: int, rate: int)
    requires 0 <= tokens <= MAX_TOKENS && 0 <= rate <= MAX_RATE
    ensures 0 <= tokens * rate <= 600_000_000_000_000_000
  {
    assert 0 <= tokens * rate <= MAX_TOKENS * rate;
  }

  lemma CeilFits(x: int)
    requires 0 <= x <= 600_000_000_000_000_000
    ensures CeilDiv64(Wrap(x), PER_MILLION) == CeilDiv(x, PER_MILLION) <= 600_000_000_000
    ensures 0 <= CeilDiv(x, PER_MILLION)
  {
    WrapIsIdentity(x);
    WrapIsIdentity(x + PER_MILLION);
    WrapIsIdentity(x + PER_MILLION - 1);
    hide Wrap;
  }

  predicate Fits(x: int) {
    MIN_INT64 <= x < MIN_INT64 + TWO_64
  }

  /** What `ceilDiv` computes on the way fits into 64 bits. */
  predicate CeilDivFits(numerator: int, denominator: int) {
    Fits(numerator) && Fits(numerator + denominator) && Fits(numerator + denominator - 1)
  }

  /** Every intermediate value of a charge fits into 64 bits. */
  predicate EveryStepFits(sel: SelectedTiers, usage: Usage) {
    var b := BilledTokens(sel, usage);
    var m0 := CeilDiv(b.uncached * sel.input, PER_MILLION);
    var m1 := m0 + CeilDiv(b.cached * RateOf(sel.cachedInput), PER_MILLION);
    var m2 := m1 + CeilDiv(b.written * RateOf(sel.cacheWrite), PER_MILLION);
    var m3 := m2 + CeilDiv(b.output * sel.output, PER_MILLION);
    && Fits(usage.input + usage.output) && Fits(usage.input - b.cached)
    && CeilDivFits(b.uncached * sel.input, PER_MILLION)
    && CeilDivFits(b.cached * RateOf(sel.cachedInput), PER_MILLION)
    && CeilDivFits(b.written * RateOf(sel.cacheWrite), PER_MILLION)
    && CeilDivFits(b.output * sel.output, PER_MILLION)
    && Fits(m0) && Fits(m1) && Fits(m2) && CeilDivFits(m3, MICROS_PER_CENT)
  }

  /** No overflow: for up to a thousand million tokens of each kind at rates up to
      600 dollars per million, every step fits into 64 bits, and 64-bit arithmetic
      computes the exact charge. */
  lemma {:induction false} MachineChargeIsExact(sel: SelectedTiers, minimum: int, usage: Usage)
    requires ValidUsage(usage) && ValidRates(sel)
    requires usage.input <= MAX_TOKENS && usage.output <= MAX_TOKENS
    requires UpTo(usage.cacheRead, MAX_TOKENS) && UpTo(usage.cacheWrite, MAX_TOKENS)
    requires sel.input <= MAX_RATE && sel.output <= MAX_RATE
    requires UpTo(sel.cachedInput, MAX_RATE) && UpTo(sel.cacheWrite, MAX_RATE)
    ensures EveryStepFits(sel, usage)
    ensures Charge64(sel, minimum, usage) == Charge(sel, minimum, usage)
  {
    hide CeilDiv, CeilDiv64, Wrap;
    var b := BilledTokens(sel, usage);
    ProductFits(b.uncached, sel.input);
    ProductFits(b.cached, RateOf(sel.cachedInput));
    ProductFits(b.written, RateOf(sel.cacheWrite));
    ProductFits(b.output, sel.output);
    WrapIsIdentity(usage.input + usage.output);
    WrapIsIdentity(usage.input - b.cached);
    var m0 := CeilDiv(b.uncached * sel.input, PER_MILLION);
    var m1 := m0 + CeilDiv(b.cached * RateOf(sel.cachedInput), PER_MILLION);
    var m2 := m1 + CeilDiv(b.written * RateOf(sel.cacheWrite), PER_MILLION);
    var m3 := m2 + CeilDiv(b.output * sel.output, PER_MILLION);
    WrapIsIdentity(m1);
    WrapIsIdentity(m2);
    WrapIsIdentity(m3);
    CentsFit(m3);
  }

  lemma CentsFit(m: int)
    requires 0 <= m <= 2_400_000_000_000
    ensures CeilDiv64(m, MICROS_PER_CENT) == CeilDiv(m, MICROS_PER_CENT)
  {
    WrapIsIdentity(m + MICROS_PER_CENT);
    WrapIsIdentity(m + MICROS_PER_CENT - 1);
  }
}
