/**
  The service in front of ledger and budget: every inference enters the ledger once and the quota
  counters once. The main result compares the two over whole runs.
 */
module Service {
  import opened Wrappers
  import opened Pricing
  import opened Attribution
  import opened Reconciler
  import opened Ledger
  import opened Budget
  import BudgetRuns

  /** The accounting record of an upstream inference. */
  function UpstreamRecord(tenant: string, month: string, x: Inference, retriesCost: real, usage: Option<Usage>)
    : FinOpsRecord
  {
    var estimated := RecordedEstimate(x);
    var rec := Reconcile(x.selected, x.raw + x.output, estimated, usage, x.cached, x.write);
    var effective := if rec.authoritative && rec.cost.Some? then rec.cost.value else estimated;
    FinOpsRecord(tenant, month, x.optimized, x.output, rec.total, RecordedBaseline(x), estimated, effective,
                 Max(0, RecordedBaseline(x) - effective), MissAttribution(x, retriesCost), false)
  }

  function HitRecord(tenant: string, month: string, r: Rates, raw: nat, output: nat): FinOpsRecord {
    var baseline := BaselineCost(r, raw, output);
    FinOpsRecord(tenant, month, 0, output, Some(0), baseline, 0, 0, baseline, HitAttribution(r, raw, output), true)
  }

  /** What a record says was billed: the provider's total, else what was sent and received. */
  function Billed(r: FinOpsRecord): Amount {
    Amount(if r.reportedTotal.Some? then r.reportedTotal.value else r.optimizedTokens + r.outputTokens, r.effectiveCost)
  }

  /** The settlement of a record: finalize the reservation there is, else settle outright. */
  function Settled(b: Books, account: Account, billed: Amount, reservation: Option<Reservation>, current: Period)
    : (Books, Option<Amount>)
  {
    if reservation.Some? then Finalize(b, reservation.value, billed, current) else Settle(b, account, billed)
  }

  lemma CostIsNonNegative(tenant: string, month: string, x: Inference, retriesCost: real, usage: Option<Usage>)
    ensures Billed(UpstreamRecord(tenant, month, x, retriesCost, usage)).cost >= 0
  {
  }

  datatype ServiceError = NegativeUsage

  class FinOpsService {
    const ledger: FinOpsLedger
    const budget: FinOpsBudgetManager

    constructor (ledger: FinOpsLedger, budget: FinOpsBudgetManager)
      ensures this.ledger == ledger && this.budget == budget
    {
      this.ledger, this.budget := ledger, budget;
    }

    method RecordCacheHit(tenant: string, month: string, r: Rates, raw: nat, output: nat) returns (record: FinOpsRecord)
      requires ledger.Valid()
      modifies ledger
      ensures record == HitRecord(tenant, month, r, raw, output) && Billed(record) == ZERO
      ensures ledger.Valid() && ledger.history == old(ledger.history) + [record]
    {
      var baseline := BaselineCost(r, raw, output);
      var attribution := HitAttribution(r, raw, output);
      record := FinOpsRecord(tenant, month, 0, output, Some(0), baseline, 0, 0, baseline, attribution, true);
      ledger.Record(record);
    }

    /** The ledger is written first; a settlement that then refuses a negative count leaves the record behind. */
    method RecordUpstreamInference(tenant: string, month: string, x: Inference, retriesCost: real, usage: Option<Usage>,
                                   reservation: Option<Reservation>, current: Period)
      returns (r: Result<FinOpsRecord, ServiceError>)
      requires ledger.Valid()
      modifies ledger, budget
      ensures var record := UpstreamRecord(tenant, month, x, retriesCost, usage);
              && ledger.Valid() && ledger.history == old(ledger.history) + [record]
              && budget.State()
                == Settled(old(budget.State()), Account(tenant, current), Billed(record), reservation, current).0
              && r == (if Billed(record).tokens >= 0 then Ok(record) else Err(NegativeUsage))
    {
      CostIsNonNegative(tenant, month, x, retriesCost, usage);
      var baseline := BaselineCost(x.requested, x.raw, x.output);
      var estimated := RecordedEstimate(x);
      var rec := Reconcile(x.selected, x.raw + x.output, estimated, usage, x.cached, x.write);
      var effective := if rec.authoritative && rec.cost.Some? then rec.cost.value else estimated;
      var record := FinOpsRecord(tenant, month, x.optimized, x.output, rec.total, baseline, estimated, effective,
                                 Max(0, baseline - effective), MissAttribution(x, retriesCost), false);
      ledger.Record(record);
      var billedTokens := if rec.total.Some? then rec.total.value else x.optimized + x.output;
      var total;
      if reservation.Some? {
        total := budget.FinalizeReservation(reservation.value, billedTokens, effective, current);
      } else {
        total := budget.SettleRequest(tenant, current, billedTokens, effective);
      }
      if total.None? {
        return Err(NegativeUsage);
      }
      return Ok(record);
    }
  }
}

/** Ledger and budget over whole runs of the service. */
module ServiceRuns {
  import opened Wrappers
  import opened Pricing
  import opened Attribution
  import opened Reconciler
  import opened Ledger
  import opened Budget
  import opened BudgetRuns
  import opened Service

  datatype Event =
    | ReserveEvent(account: Account, ask: Amount)
    | QuotaEvent(tenant: string, quota: Option<int>, dollars: Option<int>)
    | HitEvent(tenant: string, month: string, rates: Rates, raw: nat, output: nat)
    | UpstreamEvent(tenant: string, month: string, period: Period, x: Inference, retriesCost: real,
            usage: Option<Usage>, handle: Option<nat>)

  datatype State = State(budget: World, history: seq<FinOpsRecord>)

  function Begin(tokenLimits: map<string, int>, dollarLimits: map<string, int>): State {
    State(Start(tokenLimits, dollarLimits), [])
  }

  /** The record an upstream event leaves. */
  function Recorded(e: Event): FinOpsRecord
    requires e.UpstreamEvent?
  {
    UpstreamRecord(e.tenant, e.month, e.x, e.retriesCost, e.usage)
  }

  function Charge(w: World, e: Event): World
    requires e.UpstreamEvent?
  {
    var billed := Billed(Recorded(e));
    if e.handle.Some? then FinalizeStep(w, e.handle.value, billed, e.period)
      else SettleStep(w, Account(e.tenant, e.period), billed)
  }

  /** The reservation that the event hands to the service, if it has one. */
  function Handed(w: World, e: Event): Option<Reservation>
    requires e.UpstreamEvent? && (e.handle.Some? ==> IsHandle(w, e.handle.value))
  {
    if e.handle.Some? then Some(Handle(w, e.handle.value)) else None
  }

  /**
    What a run charges is what the service charges: the reservation is finalized if there is one, else it is
    settled.
   */
  lemma ChargeIsTheService(w: World, e: Event)
    requires e.UpstreamEvent? && (e.handle.Some? ==> IsHandle(w, e.handle.value))
    ensures Charge(w, e).books
         == Settled(w.books, Account(e.tenant, e.period), Billed(Recorded(e)), Handed(w, e), e.period).0
  {
    CostIsNonNegative(e.tenant, e.month, e.x, e.retriesCost, e.usage);
  }

  function Advance(s: State, e: Event): State {
    match e
    case ReserveEvent(a, ask) => s.(budget := Step(s.budget, ReserveCall(a, ask)))
    case QuotaEvent(t, quota, dollars) => s.(budget := Step(s.budget, SetBudgetCall(t, quota, dollars)))
    case HitEvent(t, month, r, raw, output) => s.(history := s.history + [HitRecord(t, month, r, raw, output)])
    case UpstreamEvent(_, _, _, _, _, _, _) => State(Charge(s.budget, e), s.history + [Recorded(e)])
  }

  function Play(s: State, es: seq<Event>): State {
    if es == [] then s else Advance(Play(s, es[..|es| - 1]), es[|es| - 1])
  }

  // ----- a tenant's totals, in tokens or in micro-dollars -----

  function LedgerTotal(history: seq<FinOpsRecord>, t: string, u: Unit): int {
    if history == [] then 0
    else
      var last := history[|history| - 1];
      LedgerTotal(history[..|history| - 1], t, u) + (if last.tenant == t then Billed(last).In(u) else 0)
  }

  function Part(l: Line, t: string, stillOpen: bool, u: Unit): int {
    if l.account.tenant == t && l.Open? == stillOpen then l.Counts().In(u) else 0
  }

  /** A tenant's charges over all months: those still open, or those that are not. */
  function TenantPart(lines: seq<Line>, t: string, stillOpen: bool, u: Unit): int {
    if lines == [] then 0
    else TenantPart(lines[..|lines| - 1], t, stillOpen, u) + Part(lines[|lines| - 1], t, stillOpen, u)
  }

  lemma LedgerMore(history: seq<FinOpsRecord>, r: FinOpsRecord, t: string, u: Unit)
    ensures LedgerTotal(history + [r], t, u)
         == LedgerTotal(history, t, u) + (if r.tenant == t then Billed(r).In(u) else 0)
  {
    assert (history + [r])[..|history|] == history;
  }

  lemma PartMore(lines: seq<Line>, x: Line, t: string, stillOpen: bool, u: Unit)
    ensures TenantPart(lines + [x], t, stillOpen, u) == TenantPart(lines, t, stillOpen, u) + Part(x, t, stillOpen, u)
  {
    assert (lines + [x])[..|lines|] == lines;
  }

  lemma {:induction false} PartChange(lines: seq<Line>, i: nat, x: Line, t: string, stillOpen: bool, u: Unit)
    requires i < |lines|
    ensures TenantPart(lines[i := x], t, stillOpen, u)
         == TenantPart(lines, t, stillOpen, u) + Part(x, t, stillOpen, u) - Part(lines[i], t, stillOpen, u)
  {
    var n := |lines| - 1;
    if i == n {
      assert lines[i := x][..n] == lines[..n];
    } else {
      assert lines[i := x][..n] == lines[..n][i := x];
      PartChange(lines[..n], i, x, t, stillOpen, u);
    }
  }

  // ----- drift -----

  /** What the budget has definitely charged a tenant beyond what the ledger says. */
  function Drift(s: State, t: string, u: Unit): int {
    TenantPart(s.budget.lines, t, false, u) - LedgerTotal(s.history, t, u)
  }

  /** The tenant whose counters an upstream recording really moves, if any. */
  function ChargedTenant(w: World, e: Event): Option<string>
    requires e.UpstreamEvent?
  {
    if Billed(Recorded(e)).tokens < 0 then None
    else if e.handle.None? then Some(e.tenant)
    else if IsHandle(w, e.handle.value) && w.lines[e.handle.value].Open?
      then Some(w.lines[e.handle.value].account.tenant)
    else None
  }

  /** The recording bills no negative count, and uses its own tenant's reservation, for the first time. */
  predicate Clean(s: State, e: Event) {
    e.UpstreamEvent? ==>
      && Billed(Recorded(e)).tokens >= 0
      && (e.handle.Some? ==>
            && IsHandle(s.budget, e.handle.value)
            && s.budget.lines[e.handle.value].Open?
            && s.budget.lines[e.handle.value].account.tenant == e.tenant)
  }

  lemma CleanChargesItsTenant(s: State, e: Event)
    requires e.UpstreamEvent?
    ensures Clean(s, e) <==> ChargedTenant(s.budget, e) == Some(e.tenant)
  {
  }

  lemma ChargeLines(w: World, e: Event)
    requires e.UpstreamEvent?
    ensures var billed := Billed(Recorded(e));
            Charge(w, e).lines ==
              if ChargedTenant(w, e).None? then w.lines
              else if e.handle.None? then w.lines + [Direct(Account(e.tenant, e.period), billed)]
              else w.lines[e.handle.value :=
                Final(w.lines[e.handle.value].account, w.lines[e.handle.value].reserved, billed)]
  {
    CostIsNonNegative(e.tenant, e.month, e.x, e.retriesCost, e.usage);
  }

  lemma ChargePart(w: World, e: Event, billed: Amount, t: string, u: Unit)
    requires e.UpstreamEvent? && billed == Billed(Recorded(e))
    ensures TenantPart(Charge(w, e).lines, t, false, u)
         == TenantPart(w.lines, t, false, u) + (if ChargedTenant(w, e) == Some(t) then billed.In(u) else 0)
  {
    ChargeLines(w, e);
    if ChargedTenant(w, e).Some? {
      if e.handle.None? {
        PartMore(w.lines, Direct(Account(e.tenant, e.period), billed), t, false, u);
      } else {
        var l := w.lines[e.handle.value];
        PartChange(w.lines, e.handle.value, Final(l.account, l.reserved, billed), t, false, u);
      }
    }
  }

  /** An upstream recording moves the drift of the tenant it charges up, and of the tenant it names down. */
  lemma UpstreamDrift(s: State, e: Event, billed: Amount, t: string, u: Unit)
    requires e.UpstreamEvent? && billed == Billed(Recorded(e))
    ensures Drift(Advance(s, e), t, u) == Drift(s, t, u)
              + (if ChargedTenant(s.budget, e) == Some(t) then billed.In(u) else 0)
              - (if e.tenant == t then billed.In(u) else 0)
  {
    var s' := Advance(s, e);
    assert s'.budget == Charge(s.budget, e) && s'.history == s.history + [Recorded(e)];
    ChargePart(s.budget, e, billed, t, u);
    LedgerMore(s.history, Recorded(e), t, u);
    assert Recorded(e).tenant == e.tenant;
  }

  /** Reservations, quotas and cache hits never move ledger and budget apart. */
  lemma OtherDrift(s: State, e: Event, t: string, u: Unit)
    requires !e.UpstreamEvent?
    ensures Drift(Advance(s, e), t, u) == Drift(s, t, u)
  {
    match e
    case ReserveEvent(a, ask) => PartMore(s.budget.lines, Open(a, ask), t, false, u);
    case QuotaEvent(_, _, _) =>
    case HitEvent(tenant, month, r, raw, output) =>
      LedgerMore(s.history, HitRecord(tenant, month, r, raw, output), t, u);
      assert Billed(HitRecord(tenant, month, r, raw, output)) == ZERO;
  }

  ghost predicate MovesTogether(s: State, e: Event) {
    forall t: string, u: Unit :: Drift(Advance(s, e), t, u) == Drift(s, t, u)
  }

  /**
    The exact condition for one step: ledger and budget move together for every tenant if and only if
    the recording is clean, or bills nothing at all.
   */
  lemma {:induction false} DriftsExactlyWhenUnclean(s: State, e: Event)
    ensures MovesTogether(s, e) <==> Clean(s, e) || (e.UpstreamEvent? && Billed(Recorded(e)) == ZERO)
  {
    if !e.UpstreamEvent? {
      forall t: string, u: Unit
        ensures Drift(Advance(s, e), t, u) == Drift(s, t, u)
      {
        OtherDrift(s, e, t, u);
      }
    } else {
      var billed := Billed(Recorded(e));
      CleanChargesItsTenant(s, e);
      if Clean(s, e) || billed == ZERO {
        forall t: string, u: Unit
          ensures Drift(Advance(s, e), t, u) == Drift(s, t, u)
        {
          UpstreamDrift(s, e, billed, t, u);
        }
      } else {
        var u := if billed.tokens != 0 then Tokens else MicroDollars;
        UpstreamDrift(s, e, billed, e.tenant, u);
        assert Drift(Advance(s, e), e.tenant, u) != Drift(s, e.tenant, u);
      }
    }
  }

  predicate AllClean(s: State, es: seq<Event>) {
    es != [] ==>
      var front, e := es[..|es| - 1], es[|es| - 1];
      AllClean(s, front) && Clean(Play(s, front), e) && (e.ReserveEvent? ==> e.account.period != "")
  }

  // ----- a tenant's usage over all its months -----

  ghost function Pick(accounts: set<Account>): Account
    requires accounts != {}
  {
    var a :| a in accounts; a
  }

  /** The counters of some accounts, added up. */
  ghost function SumUsed(b: Books, accounts: set<Account>, u: Unit): int {
    if accounts == {} then 0 else b.Used(Pick(accounts)).In(u) + SumUsed(b, accounts - {Pick(accounts)}, u)
  }

  ghost function SumOwed(lines: seq<Line>, accounts: set<Account>, u: Unit): int {
    if accounts == {} then 0 else Owed(lines, Pick(accounts)).In(u) + SumOwed(lines, accounts - {Pick(accounts)}, u)
  }

  function AccountsOf(b: Books, t: string): set<Account> {
    set a | a in b.usage && a.tenant == t
  }

  ghost function TotalUsage(b: Books, t: string, u: Unit): int {
    SumUsed(b, AccountsOf(b, t), u)
  }

  lemma {:induction false} SumUsedIsSumOwed(w: World, accounts: set<Account>, u: Unit)
    requires Conserved(w)
    ensures SumUsed(w.books, accounts, u) == SumOwed(w.lines, accounts, u)
  {
    if accounts != {} {
      SumUsedIsSumOwed(w, accounts - {Pick(accounts)}, u);
      assert w.books.Used(Pick(accounts)) == Owed(w.lines, Pick(accounts));
    }
  }

  lemma {:induction false} SumOwedNone(accounts: set<Account>, u: Unit)
    ensures SumOwed([], accounts, u) == 0
  {
    if accounts != {} {
      SumOwedNone(accounts - {Pick(accounts)}, u);
    }
  }

  lemma OwedMoreIn(lines: seq<Line>, x: Line, a: Account, u: Unit)
    ensures Owed(lines + [x], a).In(u) == Owed(lines, a).In(u) + (if x.account == a then x.Counts().In(u) else 0)
  {
    OwedMore(lines, x, a);
  }

  lemma {:induction false} SumOwedMore(lines: seq<Line>, x: Line, accounts: set<Account>, u: Unit)
    ensures SumOwed(lines + [x], accounts, u)
         == SumOwed(lines, accounts, u) + (if x.account in accounts then x.Counts().In(u) else 0)
  {
    if accounts != {} {
      var a := Pick(accounts);
      var longer := lines + [x];
      assert SumOwed(longer, accounts, u) == Owed(longer, a).In(u) + SumOwed(longer, accounts - {a}, u);
      SumOwedMore(lines, x, accounts - {a}, u);
      OwedMoreIn(lines, x, a, u);
    }
  }

  /** Adding up a tenant's accounts gives all its charges, month by month or not. */
  lemma {:induction false} SumOwedIsTenantTotal(lines: seq<Line>, accounts: set<Account>, t: string, u: Unit)
    requires forall a :: a in accounts ==> a.tenant == t
    requires forall i :: 0 <= i < |lines| && lines[i].account.tenant == t ==> lines[i].account in accounts
    ensures SumOwed(lines, accounts, u) == TenantPart(lines, t, true, u) + TenantPart(lines, t, false, u)
  {
    if lines == [] {
      SumOwedNone(accounts, u);
    } else {
      var front, x := lines[..|lines| - 1], lines[|lines| - 1];
      SumOwedIsTenantTotal(front, accounts, t, u);
      SumOwedMore(front, x, accounts, u);
      PartMore(front, x, t, true, u);
      PartMore(front, x, t, false, u);
      assert lines == front + [x];
      assert x.account.tenant == t <==> x.account in accounts;
    }
  }

  /** Every charged account has a counter. */
  predicate Counted(w: World) {
    forall i :: 0 <= i < |w.lines| ==> w.lines[i].account in w.books.usage
  }

  lemma {:induction false} ChargeCounted(w: World, e: Event)
    requires Counted(w) && e.UpstreamEvent?
    ensures Counted(Charge(w, e))
  {
    ChargeLines(w, e);
    var w' := Charge(w, e);
    assert w.books.usage.Keys <= w'.books.usage.Keys;
    if e.handle.None? && Billed(Recorded(e)).tokens >= 0 {
      CostIsNonNegative(e.tenant, e.month, e.x, e.retriesCost, e.usage);
      assert Account(e.tenant, e.period) in w'.books.usage;
    }
  }

  lemma AdvanceConserves(s: State, e: Event)
    requires Conserved(s.budget) && Counted(s.budget) && (e.ReserveEvent? ==> e.account.period != "")
    ensures Conserved(Advance(s, e).budget) && Counted(Advance(s, e).budget)
  {
    match e
    case ReserveEvent(a, ask) =>
      StepConserves(s.budget, ReserveCall(a, ask));
      assert s.budget.books.usage.Keys <= Advance(s, e).budget.books.usage.Keys;
    case QuotaEvent(t, quota, dollars) => StepConserves(s.budget, SetBudgetCall(t, quota, dollars));
    case HitEvent(_, _, _, _, _) =>
    case UpstreamEvent(_, _, _, _, _, _, _) =>
      ChargeCounted(s.budget, e);
      if e.handle.Some? {
        FinalizeConserves(s.budget, e.handle.value, Billed(Recorded(e)), e.period);
      } else {
        SettleConserves(s.budget, Account(e.tenant, e.period), Billed(Recorded(e)));
      }
  }

  lemma {:induction false} CleanRunsKeep(tokenLimits: map<string, int>, dollarLimits: map<string, int>,
          es: seq<Event>, t: string, u: Unit)
    requires AllClean(Begin(tokenLimits, dollarLimits), es)
    ensures var s := Play(Begin(tokenLimits, dollarLimits), es);
            Conserved(s.budget) && Counted(s.budget) && Drift(s, t, u) == 0
  {
    if es != [] {
      CleanRunsKeep(tokenLimits, dollarLimits, es[..|es| - 1], t, u);
      var s, e := Play(Begin(tokenLimits, dollarLimits), es[..|es| - 1]), es[|es| - 1];
      AdvanceConserves(s, e);
      DriftsExactlyWhenUnclean(s, e);
      assert MovesTogether(s, e);
    }
  }

  lemma ConservedTotal(w: World, t: string, u: Unit)
    requires Conserved(w) && Counted(w)
    ensures TotalUsage(w.books, t, u) == TenantPart(w.lines, t, true, u) + TenantPart(w.lines, t, false, u)
  {
    SumUsedIsSumOwed(w, AccountsOf(w.books, t), u);
    SumOwedIsTenantTotal(w.lines, AccountsOf(w.books, t), t, u);
  }

  /**
    Ledger and budget agree: over every run of clean recordings, a tenant's usage added up over all its
    months is what its whole ledger history says was billed, plus what its open reservations hold;
    in tokens and in micro-dollars.
   */
  lemma LedgerAndBudgetAgree(tokenLimits: map<string, int>, dollarLimits: map<string, int>, es: seq<Event>, t: string,
          u: Unit)
    requires AllClean(Begin(tokenLimits, dollarLimits), es)
    ensures var s := Play(Begin(tokenLimits, dollarLimits), es);
            TotalUsage(s.budget.books, t, u) == LedgerTotal(s.history, t, u) + TenantPart(s.budget.lines, t, true, u)
  {
    CleanRunsKeep(tokenLimits, dollarLimits, es, t, u);
    ConservedTotal(Play(Begin(tokenLimits, dollarLimits), es).budget, t, u);
  }
}
