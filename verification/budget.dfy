/**
  Tenant budgets in memory: reserve before the inference, finalize or settle after it. Costs are whole
  micro-dollars, so the source's rounding to six digits changes nothing.
 */
module Budget {
  import opened Wrappers

  const DEFAULT_MONTHLY_TOKEN_QUOTA := 1_000_000

  /** A month written `YYYY-MM`. */
  type Period = p: string | p != "" witness "1970-01"

  datatype Account = Account(tenant: string, period: string)

  datatype Unit = Tokens | MicroDollars

  datatype Amount = Amount(tokens: int, cost: int) {
    function In(u: Unit): int {
      if u.Tokens? then tokens else cost
    }

    function Plus(that: Amount): Amount {
      Amount(tokens + that.tokens, cost + that.cost)
    }

    function Minus(that: Amount): Amount {
      Amount(tokens - that.tokens, cost - that.cost)
    }

    /** Both parts, but never below zero. */
    function Clamped(): Amount {
      Amount(Max(0, tokens), Max(0, cost))
    }

    predicate NonNegative() {
      tokens >= 0 && cost >= 0
    }
  }

  const ZERO := Amount(0, 0)

  datatype Reservation = Reservation(account: Account, reserved: Amount, id: nat)

  datatype Outcome =
    | Granted(reservation: Reservation)
    | TokensDenied(used: int, limit: int)
    | DollarsDenied(spent: int, ceiling: int)
    | BadValue

  datatype Books = Books(
    tokenLimits: map<string, int>,
    dollarLimits: map<string, int>,
    usage: map<Account, int>,
    spent: map<Account, int>,
    finalized: set<nat>)
  {
    function TokenLimit(tenant: string): int {
      Lookup(tokenLimits, tenant).GetOr(DEFAULT_MONTHLY_TOKEN_QUOTA)
    }

    function Used(a: Account): Amount {
      Amount(Lookup(usage, a).GetOr(0), Lookup(spent, a).GetOr(0))
    }

    function WithUsed(a: Account, v: Amount): Books {
      this.(usage := usage[a := v.tokens], spent := spent[a := v.cost])
    }

    lemma WithUsedUses(a: Account, v: Amount, c: Account)
      ensures WithUsed(a, v).Used(c) == if c == a then v else Used(c)
    {
    }
  }

  /** The locked section of `reserve_budget`. */
  function Reserve(b: Books, a: Account, ask: Amount, id: nat): (Books, Outcome) {
    var used := b.Used(a);
    if !ask.NonNegative() then (b, BadValue)
    else if used.tokens + ask.tokens > b.TokenLimit(a.tenant)
      then (b, TokensDenied(used.tokens, b.TokenLimit(a.tenant)))
    else if a.tenant in b.dollarLimits && used.cost + ask.cost > b.dollarLimits[a.tenant]
    then (b, DollarsDenied(used.cost, b.dollarLimits[a.tenant]))
    else (b.WithUsed(a, used.Plus(ask)), Granted(Reservation(a, ask, id)))
  }

  /** The account a finalize charges: the reservation's own period unless it has none. */
  function Charged(r: Reservation, current: Period): Account {
    Account(r.account.tenant, if r.account.period != "" then r.account.period else current)
  }

  /** The locked section of `finalize_reservation`; `None` for a refused amount. */
  function Finalize(b: Books, r: Reservation, actual: Amount, current: Period): (Books, Option<Amount>) {
    var a := Charged(r, current);
    if !actual.NonNegative() then (b, None)
    else if r.id in b.finalized then (b, Some(b.Used(a)))
    else
      var v := b.Used(a).Plus(actual.Minus(r.reserved)).Clamped();
      (b.(finalized := b.finalized + {r.id}).WithUsed(a, v), Some(v))
  }

  /** `settle_request`. */
  function Settle(b: Books, a: Account, billed: Amount): (Books, Option<Amount>) {
    if !billed.NonNegative() then (b, None)
    else (b.WithUsed(a, b.Used(a).Plus(billed)), Some(b.Used(a).Plus(billed)))
  }

  function SetBudget(b: Books, tenant: string, quota: Option<int>, dollars: Option<int>): Books {
    var b := if quota.Some? then b.(tokenLimits := b.tokenLimits[tenant := quota.value]) else b;
    if dollars.Some? then b.(dollarLimits := b.dollarLimits[tenant := dollars.value]) else b
  }

  // ----- the manager -----

  class FinOpsBudgetManager {
    var memoryTokenLimits: map<string, int>
    var memoryDollarLimits: map<string, int>
    var memoryTokenUsage: map<Account, int>
    var memoryDollarSpent: map<Account, int>
    var finalizedReservations: set<nat>

    function State(): Books
      reads this
    {
      Books(memoryTokenLimits, memoryDollarLimits, memoryTokenUsage, memoryDollarSpent, finalizedReservations)
    }

    constructor ()
      ensures State() == Books(map[], map[], map[], map[], {})
    {
      memoryTokenLimits, memoryDollarLimits := map[], map[];
      memoryTokenUsage, memoryDollarSpent, finalizedReservations := map[], map[], {};
    }

    method ReserveBudget(tenant: string, period: Period, estimatedTokens: int, estimatedCost: int, freshId: nat)
      returns (outcome: Outcome)
      modifies this
      ensures (State(), outcome)
           == Reserve(old(State()), Account(tenant, period), Amount(estimatedTokens, estimatedCost), freshId)
    {
      if estimatedTokens < 0 || estimatedCost < 0 {
        return BadValue;
      }
      var key := Account(tenant, period);
      var limit := if tenant in memoryTokenLimits then memoryTokenLimits[tenant] else DEFAULT_MONTHLY_TOKEN_QUOTA;
      var used := if key in memoryTokenUsage then memoryTokenUsage[key] else 0;
      if used + estimatedTokens > limit {
        return TokensDenied(used, limit);
      }
      var spent := if key in memoryDollarSpent then memoryDollarSpent[key] else 0;
      if tenant in memoryDollarLimits && spent + estimatedCost > memoryDollarLimits[tenant] {
        return DollarsDenied(spent, memoryDollarLimits[tenant]);
      }
      memoryTokenUsage := memoryTokenUsage[key := used + estimatedTokens];
      memoryDollarSpent := memoryDollarSpent[key := spent + estimatedCost];
      return Granted(Reservation(key, Amount(estimatedTokens, estimatedCost), freshId));
    }

    method FinalizeReservation(r: Reservation, actualTokens: int, actualCost: int, current: Period)
      returns (total: Option<Amount>)
      modifies this
      ensures (State(), total) == Finalize(old(State()), r, Amount(actualTokens, actualCost), current)
    {
      if actualTokens < 0 || actualCost < 0 {
        return None;
      }
      var deltaTokens := actualTokens - r.reserved.tokens;
      var deltaCost := actualCost - r.reserved.cost;
      var key := Account(r.account.tenant, if r.account.period != "" then r.account.period else current);
      if r.id !in finalizedReservations {
        finalizedReservations := finalizedReservations + {r.id};
        var newTokens := (if key in memoryTokenUsage then memoryTokenUsage[key] else 0) + deltaTokens;
        var newDollars := (if key in memoryDollarSpent then memoryDollarSpent[key] else 0) + deltaCost;
        memoryTokenUsage := memoryTokenUsage[key := Max(0, newTokens)];
        memoryDollarSpent := memoryDollarSpent[key := Max(0, newDollars)];
      }
      return Some(Amount(if key in memoryTokenUsage then memoryTokenUsage[key] else 0,
                         if key in memoryDollarSpent then memoryDollarSpent[key] else 0));
    }

    method SettleRequest(tenant: string, period: Period, billedTokens: int, billedCost: int)
      returns (total: Option<Amount>)
      modifies this
      ensures (State(), total) == Settle(old(State()), Account(tenant, period), Amount(billedTokens, billedCost))
    {
      if billedTokens < 0 || billedCost < 0 {
        return None;
      }
      var key := Account(tenant, period);
      var newTokens := (if key in memoryTokenUsage then memoryTokenUsage[key] else 0) + billedTokens;
      var newDollars := (if key in memoryDollarSpent then memoryDollarSpent[key] else 0) + billedCost;
      memoryTokenUsage := memoryTokenUsage[key := newTokens];
      memoryDollarSpent := memoryDollarSpent[key := newDollars];
      return Some(Amount(newTokens, newDollars));
    }

    method ConfigureBudget(tenant: string, quota: Option<int>, dollars: Option<int>)
      modifies this
      ensures State() == SetBudget(old(State()), tenant, quota, dollars)
    {
      if quota.Some? {
        memoryTokenLimits := memoryTokenLimits[tenant := quota.value];
      }
      if dollars.Some? {
        memoryDollarLimits := memoryDollarLimits[tenant := dollars.value];
      }
    }
  }
}
