/**
  What an inference costs and what its savings are made of, cause by cause: provider reports against the local
  plan, one token against its rate, and each recorded saving against what it would have cost otherwise.
 */
module Billing {
  import opened Wrappers
  import opened Pricing
  import opened Attribution
  import opened Reconciler
  import opened Ledger
  import opened Service
  import opened Budget

  // ----- rounding -----

  /** Rounding moves a difference of two amounts by at most one. */
  lemma RoundedDifference(a: real, b: real)
    ensures -1.0 <= (Round(a) - Round(b)) as real - (a - b) <= 1.0
  {
  }

  // ----- provider reports -----

  /** The report of a provider that billed these counts. */
  function Report(uncached: int, cached: int, write: int, output: int): Usage {
    map[UncachedInputTokens := Some(uncached), CachedTokens := Some(cached),
        CacheWriteTokens := Some(write), OutputTokens := Some(output)]
  }

  /** A report that confirms the local plan of an inference bills the local estimate, and what was sent and received. */
  lemma ConfirmedPlanBillsTheEstimate(x: Inference, localTokens: int, c2: int, w2: int)
    ensures var uncached := Max(0, x.optimized - x.cached);
            var r := Reconcile(x.selected, localTokens, RecordedEstimate(x),
                               Some(Report(uncached, x.cached, x.write, x.output)), c2, w2);
            && r.authoritative && r.cost == Some(RecordedEstimate(x)) && r.varianceCost == 0
            && r.total == Some(uncached + x.cached + x.output)
            && r.varianceTokens == uncached + x.cached + x.output - localTokens
            && (x.cached <= x.optimized ==> r.total == Some(x.optimized + x.output))
  {
  }

  /** Whatever else it says, a reported total is the total. */
  lemma ReportedTotalIsTheTotal(r: Rates, localTokens: int, localCost: int, u: Usage, n: int, cached: int, write: int)
    ensures var x := Reconcile(r, localTokens, localCost, Some(u[TotalTokens := Some(n)]), cached, write);
            x.total == Some(n) && x.varianceTokens == n - localTokens
  {
    assert TotalTokens in u[TotalTokens := Some(n)];
  }

  /**
    A report of totals: what of the prompt is not cached is uncached, and more cached tokens than the prompt has
    leave nothing to pay at the input rate.
   */
  lemma PromptLessCached(r: Rates, localTokens: int, localCost: int, prompt: nat, cached: nat, write: nat, output: nat,
                         c2: int, w2: int)
    ensures var totals: Usage := map[PromptTokens := Some(prompt), CachedTokens := Some(cached),
                                     CacheWriteTokens := Some(write), CompletionTokens := Some(output)];
            var x := Reconcile(r, localTokens, localCost, Some(totals), c2, w2);
            && x.cost == Some(CostOf(r, if prompt > cached then prompt - cached else 0, cached, write, output))
            && x.total == Some(prompt + output)
  {
    var totals: Usage := map[PromptTokens := Some(prompt), CachedTokens := Some(cached),
                             CacheWriteTokens := Some(write), CompletionTokens := Some(output)];
    assert PromptTokens in totals;
    assert Cached(totals, c2) == cached && Completion(totals) == output;
    assert ProvInt(totals, CacheWriteTokens, CacheCreationInputTokens, w2) == write;
    CostOfReport(r, if prompt > cached then prompt - cached else 0, cached, write, output);
  }

  /** No report, or an empty one, establishes nothing. */
  lemma EmptyReportSaysNothing(r: Rates, localTokens: int, localCost: int, cached: int, write: int)
    ensures var x := Reconcile(r, localTokens, localCost, None, cached, write);
            && !x.authoritative && x.cost.None? && x.total.None? && x.varianceCost == 0 && x.varianceTokens == 0
            && Reconcile(r, localTokens, localCost, Some(map[]), cached, write) == x
  {
  }

  /** Pairs of names for one count; the first one wins. */
  predicate Synonyms(first: UsageKey, second: UsageKey) {
    || (first == CachedTokens && second == CachedPromptTokens)
    || (first == UncachedInputTokens && second == UncachedTokens)
    || (first == CompletionTokens && second == OutputTokens)
    || (first == CacheWriteTokens && second == CacheCreationInputTokens)
  }

  /** Two reports with the same counts, whichever names they come under. */
  predicate SameCounts(u: Usage, v: Usage, cached: int, write: int) {
    && u != map[] && v != map[]
    && Cached(u, cached) == Cached(v, cached) && (HasPrompt(u) <==> HasPrompt(v)) && PromptCount(u) == PromptCount(v)
    && ProvInt(u, UncachedInputTokens, UncachedTokens, 0) == ProvInt(v, UncachedInputTokens, UncachedTokens, 0)
    && Completion(u) == Completion(v) && Reported(u, TotalTokens) == Reported(v, TotalTokens)
    && ProvInt(u, CacheWriteTokens, CacheCreationInputTokens, write)
       == ProvInt(v, CacheWriteTokens, CacheCreationInputTokens, write)
  }

  lemma OnlyCountsMatter(r: Rates, localTokens: int, localCost: int, u: Usage, v: Usage, cached: int, write: int)
    requires SameCounts(u, v, cached, write)
    ensures Reconcile(r, localTokens, localCost, Some(u), cached, write)
         == Reconcile(r, localTokens, localCost, Some(v), cached, write)
  {
  }

  lemma BothNames(u: Usage, first: UsageKey, second: UsageKey, n: int, other: Option<int>, cached: int, write: int)
    requires Synonyms(first, second)
    ensures SameCounts(u[first := Some(n)][second := other], (u - {second})[first := Some(n)], cached, write)
  {
    var one, both := (u - {second})[first := Some(n)], u[first := Some(n)][second := other];
    assert first in one && first in both;
    forall k: UsageKey | k != first && k != second
      ensures Reported(one, k) == Reported(both, k)
    {
    }
    assert Reported(one, first) == Some(n) && Reported(both, first) == Some(n);
  }

  lemma OtherName(u: Usage, first: UsageKey, second: UsageKey, n: int, cached: int, write: int)
    requires Synonyms(first, second)
    ensures SameCounts((u - {first})[second := Some(n)], (u - {second})[first := Some(n)], cached, write)
  {
    var one, alone := (u - {second})[first := Some(n)], (u - {first})[second := Some(n)];
    assert first in one && second in alone;
    forall k: UsageKey | k != first && k != second
      ensures Reported(one, k) == Reported(alone, k)
    {
    }
    assert Reported(one, first) == Some(n) && Reported(alone, second) == Some(n) && Reported(alone, first) == None;
  }

  /** A count may come under either of its names, and under both the second says nothing. */
  lemma FirstNameWins(r: Rates, localTokens: int, localCost: int, u: Usage, first: UsageKey, second: UsageKey,
                      n: int, other: Option<int>, cached: int, write: int)
    requires Synonyms(first, second)
    ensures var one := Reconcile(r, localTokens, localCost, Some((u - {second})[first := Some(n)]), cached, write);
            && Reconcile(r, localTokens, localCost, Some(u[first := Some(n)][second := other]), cached, write) == one
            && Reconcile(r, localTokens, localCost, Some((u - {first})[second := Some(n)]), cached, write) == one
  {
    var one := (u - {second})[first := Some(n)];
    BothNames(u, first, second, n, other, cached, write);
    OtherName(u, first, second, n, cached, write);
    OnlyCountsMatter(r, localTokens, localCost, u[first := Some(n)][second := other], one, cached, write);
    OnlyCountsMatter(r, localTokens, localCost, (u - {first})[second := Some(n)], one, cached, write);
  }

  lemma PromptAlone(u: Usage, n: int, cached: int, write: int)
    ensures SameCounts((u - {InputTokens})[PromptTokens := Some(n)], (u - {PromptTokens})[InputTokens := Some(n)],
                       cached, write)
  {
    var one, prompt := (u - {PromptTokens})[InputTokens := Some(n)], (u - {InputTokens})[PromptTokens := Some(n)];
    assert InputTokens in one && PromptTokens in prompt;
    forall k: UsageKey | k != PromptTokens && k != InputTokens
      ensures Reported(one, k) == Reported(prompt, k)
    {
    }
  }

  lemma PromptFirst(u: Usage, n: int, other: Option<int>, cached: int, write: int)
    requires n != 0
    ensures SameCounts(u[PromptTokens := Some(n)][InputTokens := other], (u - {PromptTokens})[InputTokens := Some(n)],
                       cached, write)
  {
    var one, both := (u - {PromptTokens})[InputTokens := Some(n)], u[PromptTokens := Some(n)][InputTokens := other];
    assert InputTokens in one && PromptTokens in both;
    forall k: UsageKey | k != PromptTokens && k != InputTokens
      ensures Reported(one, k) == Reported(both, k)
    {
    }
  }

  lemma ZeroPrompt(u: Usage, n: int, cached: int, write: int)
    ensures SameCounts(u[PromptTokens := Some(0)][InputTokens := Some(n)],
                       (u - {PromptTokens})[InputTokens := Some(n)], cached, write)
  {
    var one, zero := (u - {PromptTokens})[InputTokens := Some(n)], u[PromptTokens := Some(0)][InputTokens := Some(n)];
    assert InputTokens in one && PromptTokens in zero;
    forall k: UsageKey | k != PromptTokens && k != InputTokens
      ensures Reported(one, k) == Reported(zero, k)
    {
    }
  }

  /** A prompt count says the same as an input count, and is taken before it unless it is 0. */
  lemma PromptBeforeInput(r: Rates, localTokens: int, localCost: int, u: Usage, n: int, other: Option<int>,
                          cached: int, write: int)
    ensures var one := Reconcile(r, localTokens, localCost, Some((u - {PromptTokens})[InputTokens := Some(n)]), cached,
                                 write);
            && Reconcile(r, localTokens, localCost, Some((u - {InputTokens})[PromptTokens := Some(n)]), cached, write)
               == one
            && (n != 0 ==>
                  Reconcile(r, localTokens, localCost, Some(u[PromptTokens := Some(n)][InputTokens := other]), cached,
                            write) == one)
            && Reconcile(r, localTokens, localCost, Some(u[PromptTokens := Some(0)][InputTokens := Some(n)]), cached,
                         write) == one
  {
    var one := (u - {PromptTokens})[InputTokens := Some(n)];
    PromptAlone(u, n, cached, write);
    ZeroPrompt(u, n, cached, write);
    OnlyCountsMatter(r, localTokens, localCost, (u - {InputTokens})[PromptTokens := Some(n)], one, cached, write);
    OnlyCountsMatter(r, localTokens, localCost, u[PromptTokens := Some(0)][InputTokens := Some(n)], one, cached, write);
    if n != 0 {
      PromptFirst(u, n, other, cached, write);
      OnlyCountsMatter(r, localTokens, localCost, u[PromptTokens := Some(n)][InputTokens := other], one, cached, write);
    }
  }

  // ----- what tokens cost -----

  /** What a report of these counts costs. */
  function CostOf(r: Rates, uncached: nat, cached: nat, write: nat, output: nat): int {
    Reconcile(r, 0, 0, Some(Report(uncached, cached, write, output)), 0, 0).cost.GetOr(0)
  }

  lemma CountTimesRate(n: nat, rate: real)
    requires rate >= 0.0
    ensures n as real * rate >= 0.0
    ensures (n + 1) as real * rate == n as real * rate + rate
  {
  }

  /** The counts at their rates. */
  function Worth(r: Rates, uncached: nat, cached: nat, write: nat, output: nat): real {
    uncached as real * r.input + cached as real * r.cacheRead + write as real * r.cacheWrite + output as real * r.output
  }

  lemma WorthMore(r: Rates, uncached: nat, cached: nat, write: nat, output: nat)
    requires r.NonNegative()
    ensures Worth(r, uncached, cached, write, output) >= 0.0
    ensures Worth(r, uncached + 1, cached, write, output) == Worth(r, uncached, cached, write, output) + r.input
    ensures Worth(r, uncached, cached + 1, write, output) == Worth(r, uncached, cached, write, output) + r.cacheRead
    ensures Worth(r, uncached, cached, write + 1, output) == Worth(r, uncached, cached, write, output) + r.cacheWrite
    ensures Worth(r, uncached, cached, write, output + 1) == Worth(r, uncached, cached, write, output) + r.output
  {
    CountTimesRate(uncached, r.input);
    CountTimesRate(cached, r.cacheRead);
    CountTimesRate(write, r.cacheWrite);
    CountTimesRate(output, r.output);
  }

  predicate Near(cost: int, worth: real) {
    -0.5 <= cost as real - worth <= 0.5
  }

  lemma CostOfReport(r: Rates, uncached: nat, cached: nat, write: nat, output: nat)
    ensures CostOf(r, uncached, cached, write, output)
         == Round(MaxReal(0.0, Worth(r, uncached, cached, write, output)))
  {
    var u := Report(uncached, cached, write, output);
    assert UncachedInputTokens in u;
    assert !HasPrompt(u) && Uncached(u, 0) == uncached && Cached(u, 0) == cached && Completion(u) == output;
    assert ProvInt(u, CacheWriteTokens, CacheCreationInputTokens, 0) == write;
    assert FullCost(r, uncached, cached, write, output) == Worth(r, uncached, cached, write, output);
  }

  /** The billed cost is the counts at their rates, up to half a micro-dollar. */
  lemma CostIsTheSum(r: Rates, uncached: nat, cached: nat, write: nat, output: nat)
    requires r.NonNegative()
    ensures Near(CostOf(r, uncached, cached, write, output), Worth(r, uncached, cached, write, output))
  {
    WorthMore(r, uncached, cached, write, output);
    CostOfReport(r, uncached, cached, write, output);
  }

  /** The second cost is the first and this rate, up to one micro-dollar. */
  predicate CostsMore(first: int, second: int, rate: real) {
    -1.0 <= (second - first) as real - rate <= 1.0
  }

  lemma NearCostsMore(a: int, b: int, x: real, y: real, rate: real)
    requires Near(a, x) && Near(b, y) && y == x + rate
    ensures CostsMore(a, b, rate)
  {
  }

  /** Each further token of a kind costs that kind's rate. */
  lemma EachTokenCostsItsRate(r: Rates, uncached: nat, cached: nat, write: nat, output: nat)
    requires r.NonNegative()
    ensures var cost := CostOf(r, uncached, cached, write, output);
            && CostsMore(cost, CostOf(r, uncached + 1, cached, write, output), r.input)
            && CostsMore(cost, CostOf(r, uncached, cached + 1, write, output), r.cacheRead)
            && CostsMore(cost, CostOf(r, uncached, cached, write + 1, output), r.cacheWrite)
            && CostsMore(cost, CostOf(r, uncached, cached, write, output + 1), r.output)
  {
    var cost, worth := CostOf(r, uncached, cached, write, output), Worth(r, uncached, cached, write, output);
    WorthMore(r, uncached, cached, write, output);
    CostIsTheSum(r, uncached, cached, write, output);
    CostIsTheSum(r, uncached + 1, cached, write, output);
    CostIsTheSum(r, uncached, cached + 1, write, output);
    CostIsTheSum(r, uncached, cached, write + 1, output);
    CostIsTheSum(r, uncached, cached, write, output + 1);
    NearCostsMore(cost, CostOf(r, uncached + 1, cached, write, output), worth, worth + r.input, r.input);
    NearCostsMore(cost, CostOf(r, uncached, cached + 1, write, output), worth, worth + r.cacheRead, r.cacheRead);
    NearCostsMore(cost, CostOf(r, uncached, cached, write + 1, output), worth, worth + r.cacheWrite, r.cacheWrite);
    NearCostsMore(cost, CostOf(r, uncached, cached, write, output + 1), worth, worth + r.output, r.output);
  }

  // ----- what savings are made of -----

  /** A saving is the difference of two costs, up to one micro-dollar. */
  predicate Saves(saving: int, without: int, with_: int) {
    -1 <= saving - (without - with_) <= 1
  }

  /** Pruning saves what the pruned tokens would have cost on their way in, and nothing where none was pruned. */
  lemma PhysicalIsForPruning(x: Inference, retriesCost: real)
    requires x.Priced()
    ensures var s := MissAttribution(x, retriesCost);
            if x.raw <= x.optimized then s.physical == 0
            else Saves(s.physical, BaselineCost(x.selected, x.raw, 0), BaselineCost(x.selected, x.optimized, 0))
  {
    RoundExact(0);
    if x.raw > x.optimized {
      PrunedSaves(x);
    }
  }

  lemma PrunedSaves(x: Inference)
    requires x.Priced() && x.raw > x.optimized
    ensures Saves(Round(x.Physical()), BaselineCost(x.selected, x.raw, 0), BaselineCost(x.selected, x.optimized, 0))
  {
    PrunedTimes(x);
    PruningSaves(x.selected, x.raw, x.optimized, x.Physical());
  }

  lemma PruningSaves(r: Rates, raw: nat, optimized: nat, saved: real)
    requires r.NonNegative() && saved == raw as real * r.input - optimized as real * r.input
    ensures Saves(Round(saved), BaselineCost(r, raw, 0), BaselineCost(r, optimized, 0))
  {
    InputOnly(r, raw);
    InputOnly(r, optimized);
    RoundedSaving(saved, raw as real * r.input, optimized as real * r.input);
  }

  lemma InputOnly(r: Rates, n: nat)
    requires r.NonNegative()
    ensures BaselineCost(r, n, 0) == Round(n as real * r.input)
  {
    CountTimesRate(n, r.input);
    assert 0 as real * r.output == 0.0;
    assert PlainCost(r, n, 0) == n as real * r.input;
  }

  lemma PrunedTimes(x: Inference)
    requires x.raw > x.optimized
    ensures x.Physical() == x.raw as real * x.selected.input - x.optimized as real * x.selected.input
  {
    PositivePart(x.raw, x.optimized, x.selected.input);
    DifferenceTimes(x.raw as real, x.optimized as real, x.selected.input);
  }

  lemma RoundedSaving(saved: real, without: real, with_: real)
    requires saved == without - with_
    ensures Saves(Round(saved), Round(without), Round(with_))
  {
  }

  /**
    Routing saves the difference of the two models' prices for the same tokens, never a loss, and nothing within
    one model.
   */
  lemma RoutingIsForTheCheaperModel(x: Inference, retriesCost: real)
    requires x.Priced()
    ensures var s := MissAttribution(x, retriesCost);
            var requested := BaselineCost(x.requested, x.raw, x.output);
            var selected := BaselineCost(x.selected, x.raw, x.output);
            && s.routing >= 0 && (x.same || requested < selected ==> s.routing == 0)
            && (requested >= selected ==> Saves(s.routing, requested, selected))
  {
    CountTimesRate(x.raw, x.requested.input);
    CountTimesRate(x.output, x.requested.output);
    CountTimesRate(x.raw, x.selected.input);
    CountTimesRate(x.output, x.selected.output);
    RoundExact(0);
  }

  /**
    The provider's cache saves what the cached tokens would have cost uncached, less what writing costs above the
    input price, and nothing where nothing was read or written.
   */
  lemma CacheIsForCachedTokens(x: Inference, retriesCost: real)
    requires x.Priced()
    ensures var s := MissAttribution(x, retriesCost);
            var gained := CostOf(x.selected, x.cached, 0, 0, 0) - CostOf(x.selected, 0, x.cached, 0, 0);
            var paid := Max(0, CostOf(x.selected, 0, 0, x.write, 0) - CostOf(x.selected, x.write, 0, 0, 0));
            && (x.cached == 0 && x.write == 0 ==> s.providerCache == 0)
            && -2 <= s.providerCache - (gained - paid) <= 2
  {
    RecordedCacheSaving(x, retriesCost);
    CacheSavesCosts(x.selected, x.cached, x.write, MissAttribution(x, retriesCost).providerCache);
  }

  /** The price of some tokens of one kind. */
  function Price(n: nat, rate: real): real {
    n as real * rate
  }

  /** Reading saves and writing costs. */
  function CacheWorth(r: Rates, cached: nat, write: nat): real {
    Price(cached, r.input) - Price(cached, r.cacheRead)
    - MaxReal(0.0, Price(write, r.cacheWrite) - Price(write, r.input))
  }

  lemma CacheSavesCosts(r: Rates, cached: nat, write: nat, saving: int)
    requires r.NonNegative() && Near(saving, CacheWorth(r, cached, write))
    ensures var gained := CostOf(r, cached, 0, 0, 0) - CostOf(r, 0, cached, 0, 0);
            var paid := Max(0, CostOf(r, 0, 0, write, 0) - CostOf(r, write, 0, 0, 0));
            -2 <= saving - (gained - paid) <= 2
  {
    hide Price, CostOf;
    var a, b, _ := NearWorths(r, cached);
    var d, _, c := NearWorths(r, write);
    SavingOfFour(a, b, c, d, Price(cached, r.input), Price(cached, r.cacheRead), Price(write, r.cacheWrite),
      Price(write, r.input), saving);
  }

  lemma NearWorths(r: Rates, n: nat) returns (plain: int, read: int, written: int)
    requires r.NonNegative()
    ensures plain == CostOf(r, n, 0, 0, 0) && read == CostOf(r, 0, n, 0, 0) && written == CostOf(r, 0, 0, n, 0)
    ensures Near(plain, Price(n, r.input)) && Near(read, Price(n, r.cacheRead)) && Near(written, Price(n, r.cacheWrite))
  {
    hide Worth, CostOf, Price, Near;
    CostIsTheSum(r, n, 0, 0, 0);
    CostIsTheSum(r, 0, n, 0, 0);
    CostIsTheSum(r, 0, 0, n, 0);
    WorthOfOne(r, n);
    plain, read, written := CostOf(r, n, 0, 0, 0), CostOf(r, 0, n, 0, 0), CostOf(r, 0, 0, n, 0);
  }

  lemma CacheSavingIsWorth(x: Inference)
    requires x.Priced()
    ensures x.ProviderCache() == CacheWorth(x.selected, x.cached, x.write)
  {
    CacheSplit(x);
    SurchargeIs(x.selected, x.write);
  }

  lemma RecordedCacheSaving(x: Inference, retriesCost: real)
    requires x.Priced()
    ensures Near(MissAttribution(x, retriesCost).providerCache, CacheWorth(x.selected, x.cached, x.write))
    ensures x.cached == 0 && x.write == 0 ==> MissAttribution(x, retriesCost).providerCache == 0
  {
    hide CacheWorth;
    CacheSavingIsWorth(x);
    if x.cached == 0 && x.write == 0 {
      assert x.ProviderCache() == 0.0;
    }
  }

  lemma WorthOfOne(r: Rates, n: nat)
    ensures Worth(r, n, 0, 0, 0) == Price(n, r.input) && Worth(r, 0, n, 0, 0) == Price(n, r.cacheRead)
    ensures Worth(r, 0, 0, n, 0) == Price(n, r.cacheWrite)
  {
  }

  lemma SavingOfFour(a: int, b: int, c: int, d: int, x: real, y: real, z: real, w: real, saving: int)
    requires Near(a, x) && Near(b, y) && Near(c, z) && Near(d, w) && Near(saving, x - y - MaxReal(0.0, z - w))
    ensures -2 <= saving - (a - b - Max(0, c - d)) <= 2
  {
  }

  lemma SurchargeIs(r: Rates, write: nat)
    requires r.NonNegative()
    ensures WriteSurcharge(r, write) == MaxReal(0.0, write as real * r.cacheWrite - write as real * r.input)
  {
    DifferenceTimes(r.cacheWrite, r.input, write as real);
    if r.cacheWrite <= r.input {
      CountTimes(write, r.cacheWrite, r.input);
    } else {
      CountTimesRate(write, r.cacheWrite - r.input);
    }
  }

  lemma CountTimes(n: nat, a: real, b: real)
    requires a <= b
    ensures n as real * a <= n as real * b
  {
    CountTimesRate(n, b - a);
  }

  /** Avoided retries count for what they are said to have cost, and never below zero. */
  lemma RetriesAreWhatTheyCost(x: Inference, retriesCost: real)
    ensures var s := MissAttribution(x, retriesCost);
            s.retries >= 0 && -0.5 <= s.retries as real - MaxReal(0.0, retriesCost) <= 0.5 && s.cacheHit == 0
  {
  }

  // ----- the accounting record -----

  /** A report that confirms the plan charges exactly what the plan charges without a report. */
  lemma ConfirmationChangesNothing(tenant: string, month: string, x: Inference, retriesCost: real)
    requires x.cached <= x.optimized
    ensures var report := Report(x.optimized - x.cached, x.cached, x.write, x.output);
            var planned := UpstreamRecord(tenant, month, x, retriesCost, None);
            var confirmed := UpstreamRecord(tenant, month, x, retriesCost, Some(report));
            && Billed(planned).tokens == x.optimized + x.output && Billed(planned).cost == RecordedEstimate(x)
            && Billed(confirmed) == Billed(planned) && confirmed.totalSavings == planned.totalSavings
  {
    ConfirmedPlanBillsTheEstimate(x, x.raw + x.output, x.cached, x.write);
  }

  /** What a provider reports is what is charged, in tokens and in cost, whatever the plan was. */
  lemma ReportIsCharged(tenant: string, month: string, x: Inference, retriesCost: real, uncached: nat, cached: nat,
                        write: nat, output: nat)
    ensures var report := Report(uncached, cached, write, output);
            Billed(UpstreamRecord(tenant, month, x, retriesCost, Some(report)))
            == Amount(uncached + cached + output, CostOf(x.selected, uncached, cached, write, output))
  {
    var u := Report(uncached, cached, write, output);
    assert UncachedInputTokens in u;
    ReportReads(u, uncached, cached, write, output, 0, 0);
    ReportReads(u, uncached, cached, write, output, x.cached, x.write);
  }

  /** Such a report leaves no count to the local assumptions. */
  lemma ReportReads(u: Usage, uncached: nat, cached: nat, write: nat, output: nat, c2: int, w2: int)
    requires u == Report(uncached, cached, write, output)
    ensures !HasPrompt(u) && Uncached(u, c2) == uncached && Cached(u, c2) == cached && Completion(u) == output
    ensures ProvInt(u, CacheWriteTokens, CacheCreationInputTokens, w2) == write
    ensures Total(u, c2) == uncached + cached + output
  {
  }

  /**
    Whatever a provider reports, the saving on record is what the effective cost leaves of the baseline, if
    anything.
   */
  lemma SavingCompletesTheBaseline(tenant: string, month: string, x: Inference, retriesCost: real, usage: Option<Usage>)
    ensures var r := UpstreamRecord(tenant, month, x, retriesCost, usage);
            && r.totalSavings >= 0 && !r.isCacheHit && r.tenant == tenant && r.month == month
            && (r.effectiveCost <= r.baselineCost ==> r.effectiveCost + r.totalSavings == r.baselineCost)
            && (r.effectiveCost > r.baselineCost ==> r.totalSavings == 0)
            && r.baselineCost == BaselineCost(x.requested, x.raw, x.output)
            && r.attribution == MissAttribution(x, retriesCost)
  {
  }

  /** A response from the cache saves its whole baseline, for that one cause, and bills nothing. */
  lemma HitSavesItsBaseline(tenant: string, month: string, r: Rates, raw: nat, output: nat)
    requires r.NonNegative()
    ensures var h := HitRecord(tenant, month, r, raw, output);
            && h.isCacheHit && h.tenant == tenant && h.month == month && Billed(h).tokens == 0 && Billed(h).cost == 0
            && h.baselineCost == CostOf(r, raw, 0, 0, output) && h.totalSavings == h.baselineCost
            && h.attribution == Savings(h.baselineCost, 0, 0, 0, 0, h.baselineCost)
  {
    CostOfReport(r, raw, 0, 0, output);
    assert Worth(r, raw, 0, 0, output) == PlainCost(r, raw, output);
  }
}
