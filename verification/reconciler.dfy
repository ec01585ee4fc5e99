/** What a provider's usage report says about one inference: its token total and its billed cost. */
module Reconciler {
  import opened Wrappers
  import opened Pricing

  datatype UsageKey =
    | CachedTokens | CachedPromptTokens
    | PromptTokens | InputTokens
    | UncachedInputTokens | UncachedTokens
    | CompletionTokens | OutputTokens
    | TotalTokens
    | CacheWriteTokens | CacheCreationInputTokens
    | OtherKey(name: string)

  /** A report; a key may be present with no value. */
  type Usage = map<UsageKey, Option<int>>

  datatype Reconciliation = Reconciliation(authoritative: bool, total: Option<int>, cost: Option<int>,
          varianceTokens: int, varianceCost: int)

  function Reported(u: Usage, k: UsageKey): Option<int> {
    if k in u then u[k] else None
  }

  /** `_prov_int` over two keys: the first one that carries a value, else the fallback. */
  function ProvInt(u: Usage, first: UsageKey, second: UsageKey, fallback: int): int {
    Reported(u, first).GetOr(Reported(u, second).GetOr(fallback))
  }

  function Cached(u: Usage, fallback: int): int {
    ProvInt(u, CachedTokens, CachedPromptTokens, fallback)
  }

  predicate HasPrompt(u: Usage) {
    Reported(u, PromptTokens).Some? || Reported(u, InputTokens).Some?
  }

  /** A prompt count of 0 counts as none when the input count says more. */
  function PromptCount(u: Usage): int {
    var p := Reported(u, PromptTokens).GetOr(0);
    if p != 0 then p else Reported(u, InputTokens).GetOr(0)
  }

  function Uncached(u: Usage, cached: int): int {
    if HasPrompt(u) then Max(0, PromptCount(u) - Cached(u, cached))
    else ProvInt(u, UncachedInputTokens, UncachedTokens, 0)
  }

  function Prompt(u: Usage, cached: int): int {
    if HasPrompt(u) then PromptCount(u) else Uncached(u, cached) + Cached(u, cached)
  }

  function Completion(u: Usage): int {
    ProvInt(u, CompletionTokens, OutputTokens, 0)
  }

  function Total(u: Usage, cached: int): int {
    Reported(u, TotalTokens).GetOr(Prompt(u, cached) + Completion(u))
  }

  /** `reconcile`. */
  function Reconcile(r: Rates, localTokens: int, localCost: int, usage: Option<Usage>, cached: int, write: int)
    : Reconciliation
  {
    if usage.None? || usage.value == map[] then Reconciliation(false, None, None, 0, 0)
    else
      var u := usage.value;
      var cost := BilledCost(r, Uncached(u, cached), Cached(u, cached),
                             ProvInt(u, CacheWriteTokens, CacheCreationInputTokens, write), Completion(u));
      Reconciliation(true, Some(Total(u, cached)), Some(cost), Total(u, cached) - localTokens, cost - localCost)
  }

  predicate AllNonNegative(u: Usage) {
    forall k :: k in u && u[k].Some? ==> u[k].value >= 0
  }

  /** A report of non-negative counts yields a non-negative total; a billed cost is never negative. */
  lemma ReportIsNonNegative(r: Rates, localTokens: int, localCost: int, u: Usage, cached: nat, write: nat)
    requires u != map[]
    ensures var x := Reconcile(r, localTokens, localCost, Some(u), cached, write);
            && x.authoritative && x.cost.Some? && x.cost.value >= 0 && x.total.Some?
            && (AllNonNegative(u) ==> x.total.value >= 0)
  {
  }

  /**
    A reported count wins over the local assumption, even a reported zero: the local counts cannot change the
    result.
   */
  lemma ReportWins(r: Rates, localTokens: int, localCost: int, u: Usage, cached: int, write: int, cached2: int,
          write2: int)
    requires Reported(u, CachedTokens).Some? || Reported(u, CachedPromptTokens).Some?
    requires Reported(u, CacheWriteTokens).Some? || Reported(u, CacheCreationInputTokens).Some?
    ensures Reconcile(r, localTokens, localCost, Some(u), cached, write)
         == Reconcile(r, localTokens, localCost, Some(u), cached2, write2)
  {
  }

  /** Both shapes of a report agree: uncached plus cached in one is the prompt count in the other. */
  lemma ShapesAgree(r: Rates, localTokens: int, localCost: int, uncached: int, cached: int, completion: int,
          write: int, c2: int, w2: int)
    requires uncached >= 0
    ensures var totals: Usage := map[PromptTokens := Some(uncached + cached), CachedTokens := Some(cached),
                                     CompletionTokens := Some(completion), CacheWriteTokens := Some(write)];
            var telemetry: Usage := map[UncachedInputTokens := Some(uncached), CachedTokens := Some(cached),
                                        OutputTokens := Some(completion), CacheCreationInputTokens := Some(write)];
            Reconcile(r, localTokens, localCost, Some(totals), c2, w2)
              == Reconcile(r, localTokens, localCost, Some(telemetry), c2, w2)
  {
  }
}
