/**
  Prices and savings. Rates are dollars per million tokens, so tokens times rate is in micro-dollars;
  amounts are exact reals until the source rounds them, and whole micro-dollars after.
 */
module Pricing {
  import opened Wrappers

  datatype Rates = Rates(input: real, cacheRead: real, cacheWrite: real, output: real) {
    predicate NonNegative() {
      input >= 0.0 && cacheRead >= 0.0 && cacheWrite >= 0.0 && output >= 0.0
    }
  }

  /** The cost of plain input and output tokens. */
  function PlainCost(r: Rates, input: nat, output: nat): real {
    input as real * r.input + output as real * r.output
  }

  function FullCost(r: Rates, uncached: int, cached: int, write: int, output: int): real {
    uncached as real * r.input + cached as real * r.cacheRead + write as real * r.cacheWrite + output as real * r.output
  }

  /** `calculate_baseline_cost`. */
  function BaselineCost(r: Rates, raw: nat, output: nat): int {
    Round(MaxReal(0.0, PlainCost(r, raw, output)))
  }

  /** `calculate_billed_cost`. */
  function BilledCost(r: Rates, uncached: int, cached: int, write: int, output: int): (c: int)
    ensures c >= 0
  {
    Round(MaxReal(0.0, FullCost(r, uncached, cached, write, output)))
  }

  function WriteSurcharge(r: Rates, write: nat): real {
    if write > 0 && r.cacheWrite > r.input then write as real * (r.cacheWrite - r.input) else 0.0
  }

  /** `calculate_provider_cache_savings` before it rounds. */
  function CacheSavings(r: Rates, cached: nat, write: nat): real {
    if cached <= 0 && write <= 0 then 0.0
    else cached as real * (r.input - r.cacheRead) - WriteSurcharge(r, write)
  }

  /** `calculate_model_routing_savings` before it rounds; `same` when both names are one model. */
  function RoutingSavings(requested: Rates, selected: Rates, same: bool, input: nat, output: nat): real {
    if same then 0.0
    else MaxReal(0.0, PlainCost(requested, input, output) - PlainCost(selected, input, output))
  }
}

/** The split of an inference's savings over their causes, and what it adds up to. */
module Attribution {
  import opened Wrappers
  import opened Pricing

  datatype Savings = Savings(cacheHit: int, physical: int, providerCache: int, routing: int, retries: int, total: int)

  /** One inference: the rates of the requested and of the selected model, and its token counts. */
  datatype Inference = Inference(
    requested: Rates, selected: Rates, same: bool,
    raw: nat, optimized: nat, output: nat, cached: nat, write: nat)
  {
    /** Rates are not negative, and one model has one price list. */
    predicate Priced() {
      requested.NonNegative() && selected.NonNegative() && (same ==> requested == selected)
    }

    function Physical(): real {
      Max(0, raw - optimized) as real * selected.input
    }

    function Routing(): real {
      RoutingSavings(requested, selected, same, raw, output)
    }

    function ProviderCache(): real {
      CacheSavings(selected, cached, write)
    }

    function Components(): real {
      Routing() + Physical() + ProviderCache()
    }

    function Baseline(): real {
      PlainCost(requested, raw, output)
    }

    /** The local estimate of `record_upstream_inference`. */
    function Estimate(): real {
      FullCost(selected, Max(0, optimized - cached), cached, write, output)
    }

    // ----- what the split claims beyond baseline minus estimate -----

    function DearerModel(): real {
      if same then 0.0 else MaxReal(0.0, PlainCost(selected, raw, output) - PlainCost(requested, raw, output))
    }

    function Expanded(): real {
      Max(0, optimized - raw) as real * selected.input
    }

    function OverCached(): real {
      Max(0, cached - optimized) as real * selected.input
    }

    function FreeWrites(): real {
      write as real * MinReal(selected.cacheWrite, selected.input)
    }

    function Slack(): real {
      DearerModel() + Expanded() + OverCached() + FreeWrites()
    }
  }

  /** `compute_savings_attribution` for a miss; amounts in micro-dollars. */
  function MissAttribution(x: Inference, retriesCost: real): Savings {
    var routing := if x.same then 0 else Round(x.Routing());
    var physical := Round(x.Physical());
    var cache := if x.cached <= 0 && x.write <= 0 then 0 else Round(x.ProviderCache());
    var retries := Round(MaxReal(0.0, retriesCost));
    Savings(0, physical, cache, routing, retries, Max(0, routing + physical + cache + retries))
  }

  /** `compute_savings_attribution` for a response served from the cache. */
  function HitAttribution(r: Rates, raw: nat, output: nat): Savings {
    var saved := Round(MaxReal(0.0, PlainCost(r, raw, output)));
    Savings(saved, 0, 0, 0, 0, saved)
  }

  function RecordedBaseline(x: Inference): int {
    BaselineCost(x.requested, x.raw, x.output)
  }

  function RecordedEstimate(x: Inference): int {
    Round(MaxReal(0.0, x.Estimate()))
  }

  lemma ProductNonNegative(a: real, b: real)
    requires a >= 0.0 && b >= 0.0
    ensures a * b >= 0.0
  {
  }

  lemma CostsNonNegative(x: Inference)
    requires x.Priced()
    ensures x.Baseline() >= 0.0 && x.Estimate() >= 0.0 && x.Physical() >= 0.0
    ensures x.DearerModel() >= 0.0 && x.Expanded() >= 0.0 && x.OverCached() >= 0.0 && x.FreeWrites() >= 0.0
  {
    var s := x.selected;
    ProductNonNegative(x.raw as real, x.requested.input);
    ProductNonNegative(x.output as real, x.requested.output);
    ProductNonNegative(Max(0, x.optimized - x.cached) as real, s.input);
    ProductNonNegative(x.cached as real, s.cacheRead);
    ProductNonNegative(x.write as real, s.cacheWrite);
    ProductNonNegative(x.output as real, s.output);
    ProductNonNegative(Max(0, x.raw - x.optimized) as real, s.input);
    ProductNonNegative(Max(0, x.optimized - x.raw) as real, s.input);
    ProductNonNegative(Max(0, x.cached - x.optimized) as real, s.input);
    ProductNonNegative(x.write as real, MinReal(s.cacheWrite, s.input));
  }

  lemma PositivePart(a: int, b: int, rate: real)
    ensures Max(0, a - b) as real * rate == (a as real - b as real) * rate + Max(0, b - a) as real * rate
  {
    if a >= b {
      assert Max(0, a - b) as real == a as real - b as real;
    } else {
      assert Max(0, b - a) as real == b as real - a as real;
    }
  }

  lemma SurchargeSplit(r: Rates, write: nat)
    ensures write as real * r.cacheWrite - WriteSurcharge(r, write) == write as real * MinReal(r.cacheWrite, r.input)
  {
    if write > 0 && r.cacheWrite > r.input {
      assert write as real * (r.cacheWrite - r.input) == write as real * r.cacheWrite - write as real * r.input;
    }
  }

  lemma RoutingSplit(x: Inference)
    requires x.Priced()
    ensures x.Routing() == x.Baseline() - PlainCost(x.selected, x.raw, x.output) + x.DearerModel()
  {
  }

  lemma CacheSplit(x: Inference)
    ensures x.ProviderCache() == x.cached as real * x.selected.input - x.cached as real * x.selected.cacheRead
                               - WriteSurcharge(x.selected, x.write)
  {
    assert x.cached as real * (x.selected.input - x.selected.cacheRead)
        == x.cached as real * x.selected.input - x.cached as real * x.selected.cacheRead;
  }

  /** The identity once every product is a single number. */
  lemma PartsAddUp(x: Inference, rawRate: real, optRate: real, cachedRate: real)
    requires rawRate == x.raw as real * x.selected.input && optRate == x.optimized as real * x.selected.input
    requires cachedRate == x.cached as real * x.selected.input
    requires x.Routing() == x.Baseline() - PlainCost(x.selected, x.raw, x.output) + x.DearerModel()
    requires x.Physical() == rawRate - optRate + x.Expanded()
    requires Max(0, x.optimized - x.cached) as real * x.selected.input == optRate - cachedRate + x.OverCached()
    requires x.ProviderCache()
         == cachedRate - x.cached as real * x.selected.cacheRead - WriteSurcharge(x.selected, x.write)
    requires x.write as real * x.selected.cacheWrite - WriteSurcharge(x.selected, x.write) == x.FreeWrites()
    ensures x.Components() == x.Baseline() - x.Estimate() + x.Slack()
  {
  }

  lemma DifferenceTimes(a: real, b: real, rate: real)
    ensures (a - b) * rate == a * rate - b * rate
  {
  }

  lemma IdentityOfParts(x: Inference)
    requires x.Priced()
    ensures x.Components() == x.Baseline() - x.Estimate() + x.Slack()
  {
    var rate := x.selected.input;
    RoutingSplit(x);
    CacheSplit(x);
    SurchargeSplit(x.selected, x.write);
    PositivePart(x.raw, x.optimized, rate);
    PositivePart(x.optimized, x.cached, rate);
    DifferenceTimes(x.raw as real, x.optimized as real, rate);
    DifferenceTimes(x.optimized as real, x.cached as real, rate);
    PartsAddUp(x, x.raw as real * rate, x.optimized as real * rate, x.cached as real * rate);
  }

  /**
    The identity: routing, physical and provider-cache savings add up to baseline minus estimate plus
    four slacks, none of them negative: a dearer selected model, a prompt that grew, more cached tokens
    than were sent, and the part of cache writes that is charged below the input rate.
   */
  lemma ComponentsIdentity(x: Inference)
    requires x.Priced()
    ensures x.Components() == x.Baseline() - x.Estimate() + x.Slack()
    ensures x.DearerModel() >= 0.0 && x.Expanded() >= 0.0 && x.OverCached() >= 0.0 && x.FreeWrites() >= 0.0
  {
    IdentityOfParts(x);
    CostsNonNegative(x);
  }

  /** The split is free of double counting exactly when all four slacks are zero. */
  lemma ExactlyDisjoint(x: Inference)
    requires x.Priced()
    ensures x.Components() == x.Baseline() - x.Estimate()
       <==> x.DearerModel() == 0.0 && x.Expanded() == 0.0 && x.OverCached() == 0.0 && x.FreeWrites() == 0.0
  {
    ComponentsIdentity(x);
  }

  /**
    After rounding, the recorded components miss the recorded baseline minus estimate plus slack by at most 2.5
    micro-dollars.
   */
  lemma RoundedComponents(x: Inference, retriesCost: real)
    requires x.Priced()
    ensures var s := MissAttribution(x, retriesCost);
            var parts := s.routing + s.physical + s.providerCache;
            var gap := (parts - (RecordedBaseline(x) - RecordedEstimate(x))) as real - x.Slack();
            -2.5 <= gap <= 2.5
  {
    ComponentsIdentity(x);
    CostsNonNegative(x);
    RoundExact(0);
  }

  /**
    Without slack, avoided retries and provider usage, the attributed total and the recorded savings
    differ by at most two micro-dollars.
   */
  lemma TotalsAgree(x: Inference)
    requires x.Priced() && x.Slack() == 0.0
    ensures -2 <= MissAttribution(x, 0.0).total - Max(0, RecordedBaseline(x) - RecordedEstimate(x)) <= 2
  {
    RoundedComponents(x, 0.0);
    RoundExact(0);
  }

  const SAMPLE := Inference(Rates(0.6, 0.0, 0.0, 0.4), Rates(0.4, 0.0, 0.0, 0.4), false, 2, 1, 1, 1, 0)

  /** Two micro-dollars are reached, so the bound cannot be improved. */
  lemma TotalsCanDifferByTwo()
    ensures SAMPLE.Priced() && SAMPLE.Slack() == 0.0
    ensures Max(0, RecordedBaseline(SAMPLE) - RecordedEstimate(SAMPLE)) - MissAttribution(SAMPLE, 0.0).total == 2
  {
    var x := SAMPLE;
    assert PlainCost(x.requested, 2, 1) == 1.6 && PlainCost(x.selected, 2, 1) == 1.2;
    assert x.DearerModel() == 0.0 && x.Expanded() == 0.0 && x.OverCached() == 0.0 && x.FreeWrites() == 0.0;
    assert x.Estimate() == 0.4;
    assert x.Routing() == 0.4 && x.Physical() == 0.4;
    assert WriteSurcharge(x.selected, 0) == 0.0 && x.ProviderCache() == 0.4;
    assert Round(1.6) == 2 && Round(0.4) == 0 && Round(0.0) == 0;
  }

  /** What the record type computes again from the parts when it checks the total. */
  function ValidatedTotal(s: Savings): int {
    var expected := Max(0, s.cacheHit + s.physical + s.providerCache + s.routing + s.retries);
    if s.total == 0 && expected > 0 then expected else s.total
  }

  /** The total is always the sum of the parts, never below zero; the record's own check never changes it. */
  lemma TotalIsSumOfParts(x: Inference, retriesCost: real, raw: nat, output: nat)
    ensures var s := MissAttribution(x, retriesCost);
            s.total == Max(0, s.cacheHit + s.physical + s.providerCache + s.routing + s.retries)
              && ValidatedTotal(s) == s.total
    ensures var h := HitAttribution(x.selected, raw, output);
            h.total == h.cacheHit + h.physical + h.providerCache + h.routing + h.retries && ValidatedTotal(h) == h.total
            && h.total == BaselineCost(x.selected, raw, output)
  {
  }
}
