/**
  Runs of the budget protocol. A handle is the position of a reservation among everything that was ever
  charged, so every sequence of calls is a run with genuine reservations; calls interleave in any order.
 */
module BudgetRuns {
  import opened Wrappers
  import opened Budget

  datatype Call =
    | ReserveCall(account: Account, ask: Amount)
    | FinalizeCall(handle: nat, actual: Amount, current: Period)
    | SettleCall(account: Account, billed: Amount)
    | SetBudgetCall(tenant: string, quota: Option<int>, dollars: Option<int>)

  /** One charge: a reservation still open, one that was finalized, or a settlement without one. */
  datatype Line =
    | Open(account: Account, reserved: Amount)
    | Final(account: Account, reserved: Amount, actual: Amount)
    | Direct(account: Account, billed: Amount)
  {
    function Counts(): Amount {
      match this
      case Open(_, r) => r
      case Final(_, _, x) => x
      case Direct(_, x) => x
    }

    /** What the charge used beyond what had been reserved for it. */
    function Excess(): Amount {
      match this
      case Open(_, _) => ZERO
      case Final(_, r, x) => x.Minus(r).Clamped()
      case Direct(_, x) => x
    }
  }

  /** The books, every charge so far, and the highest limit each tenant has had. */
  datatype World = World(
    books: Books,
    lines: seq<Line>,
    tokenPeak: map<string, int>,
    dollarPeak: map<string, int>)  // holds a tenant only while it has had a dollar limit all along

  function Start(tokenLimits: map<string, int>, dollarLimits: map<string, int>): World {
    World(Books(tokenLimits, dollarLimits, map[], map[], {}), [], tokenLimits, dollarLimits)
  }

  function TokenPeak(w: World, tenant: string): int {
    Lookup(w.tokenPeak, tenant).GetOr(DEFAULT_MONTHLY_TOKEN_QUOTA)
  }

  function RaisePeak(w: World, tenant: string, quota: Option<int>, dollars: Option<int>): World {
    var w := if quota.Some? then w.(tokenPeak := w.tokenPeak[tenant := Max(TokenPeak(w, tenant), quota.value)]) else w;
    if dollars.Some? && tenant in w.dollarPeak
    then w.(dollarPeak := w.dollarPeak[tenant := Max(w.dollarPeak[tenant], dollars.value)])
    else w
  }

  function ReserveStep(w: World, a: Account, ask: Amount): (World, Outcome) {
    var (books, outcome) := Reserve(w.books, a, ask, |w.lines|);
    (if outcome.Granted? then w.(books := books, lines := w.lines + [Open(a, ask)]) else w, outcome)
  }

  predicate IsHandle(w: World, i: nat) {
    i < |w.lines| && !w.lines[i].Direct?
  }

  function Handle(w: World, i: nat): Reservation
    requires IsHandle(w, i)
  {
    Reservation(w.lines[i].account, w.lines[i].reserved, i)
  }

  function FinalizeStep(w: World, i: nat, actual: Amount, current: Period): World {
    if !IsHandle(w, i) then w
    else
      var (books, r) := Finalize(w.books, Handle(w, i), actual, current);
      var lines := if r.Some? && w.lines[i].Open?
        then w.lines[i := Final(w.lines[i].account, w.lines[i].reserved, actual)] else w.lines;
      w.(books := books, lines := lines)
  }

  function SettleStep(w: World, a: Account, billed: Amount): World {
    var (books, r) := Settle(w.books, a, billed);
    if r.Some? then w.(books := books, lines := w.lines + [Direct(a, billed)]) else w
  }

  function Step(w: World, c: Call): World {
    match c
    case ReserveCall(a, ask) => ReserveStep(w, a, ask).0
    case FinalizeCall(i, actual, current) => FinalizeStep(w, i, actual, current)
    case SettleCall(a, billed) => SettleStep(w, a, billed)
    case SetBudgetCall(t, quota, dollars) =>
      RaisePeak(w.(books := SetBudget(w.books, t, quota, dollars)), t, quota, dollars)
  }

  function Run(w: World, cs: seq<Call>): World {
    if cs == [] then w else Step(Run(w, cs[..|cs| - 1]), cs[|cs| - 1])
  }

  // ----- what an account should hold -----

  /** The sum of one part of each of an account's first `n` charges. */
  function Total(lines: seq<Line>, n: nat, a: Account, part: Line -> Amount): Amount
    requires n <= |lines|
  {
    if n == 0 then ZERO
    else Total(lines, n - 1, a, part).Plus(if lines[n - 1].account == a then part(lines[n - 1]) else ZERO)
  }

  lemma {:induction false} SameTotal(xs: seq<Line>, ys: seq<Line>, n: nat, a: Account, part: Line -> Amount)
    requires n <= |xs| && n <= |ys| && forall i :: 0 <= i < n ==> xs[i] == ys[i]
    ensures Total(xs, n, a, part) == Total(ys, n, a, part)
  {
    if n > 0 {
      SameTotal(xs, ys, n - 1, a, part);
    }
  }

  lemma TotalMore(lines: seq<Line>, x: Line, a: Account, part: Line -> Amount)
    ensures Total(lines + [x], |lines| + 1, a, part)
         == Total(lines, |lines|, a, part).Plus(if x.account == a then part(x) else ZERO)
  {
    SameTotal(lines + [x], lines, |lines|, a, part);
  }

  /** Changing one charge moves its account's total by exactly the difference. */
  lemma {:induction false} TotalChange(lines: seq<Line>, n: nat, i: nat, x: Line, a: Account, part: Line -> Amount)
    requires i < n <= |lines| && x.account == lines[i].account
    ensures Total(lines[i := x], n, a, part)
         == if x.account == a then Total(lines, n, a, part).Plus(part(x).Minus(part(lines[i])))
           else Total(lines, n, a, part)
  {
    if i == n - 1 {
      SameTotal(lines[i := x], lines, n - 1, a, part);
    } else {
      TotalChange(lines, n - 1, i, x, a, part);
    }
  }

  lemma {:induction false} TotalNonNegative(lines: seq<Line>, n: nat, a: Account, part: Line -> Amount)
    requires n <= |lines| && forall i :: 0 <= i < n ==> part(lines[i]).NonNegative()
    ensures Total(lines, n, a, part).NonNegative()
  {
    if n > 0 {
      TotalNonNegative(lines, n - 1, a, part);
    }
  }

  /** Every single charge is contained in its account's total. */
  lemma {:induction false} PartIncluded(lines: seq<Line>, n: nat, i: nat, part: Line -> Amount)
    requires i < n <= |lines| && forall j :: 0 <= j < n ==> part(lines[j]).NonNegative()
    ensures Total(lines, n, lines[i].account, part).Minus(part(lines[i])).NonNegative()
  {
    if i == n - 1 {
      TotalNonNegative(lines, n - 1, lines[i].account, part);
    } else {
      PartIncluded(lines, n - 1, i, part);
    }
  }

  /** Open reservations with what they hold, finalized ones and settlements with what they cost. */
  function Owed(lines: seq<Line>, a: Account): Amount {
    Total(lines, |lines|, a, (x: Line) => x.Counts())
  }

  /** What the account's charges used beyond what had been reserved for them. */
  function Overrun(lines: seq<Line>, a: Account): Amount {
    Total(lines, |lines|, a, (x: Line) => x.Excess())
  }

  lemma OwedMore(lines: seq<Line>, x: Line, a: Account)
    ensures Owed(lines + [x], a) == Owed(lines, a).Plus(if x.account == a then x.Counts() else ZERO)
  {
    TotalMore(lines, x, a, (x: Line) => x.Counts());
  }

  lemma OwedChange(lines: seq<Line>, i: nat, x: Line, a: Account)
    requires i < |lines| && x.account == lines[i].account
    ensures Owed(lines[i := x], a)
         == if x.account == a then Owed(lines, a).Plus(x.Counts().Minus(lines[i].Counts())) else Owed(lines, a)
  {
    TotalChange(lines, |lines|, i, x, a, (x: Line) => x.Counts());
  }

  lemma OverrunMore(lines: seq<Line>, x: Line, a: Account)
    ensures Overrun(lines + [x], a) == Overrun(lines, a).Plus(if x.account == a then x.Excess() else ZERO)
  {
    TotalMore(lines, x, a, (x: Line) => x.Excess());
  }

  /** Closing a reservation adds its excess. */
  lemma OverrunClose(lines: seq<Line>, i: nat, x: Line, a: Account)
    requires i < |lines| && lines[i].Open? && x.Final? && x.account == lines[i].account
    ensures Overrun(lines[i := x], a) == Overrun(lines, a).Plus(if a == x.account then x.Excess() else ZERO)
  {
    TotalChange(lines, |lines|, i, x, a, (x: Line) => x.Excess());
    assert x.Excess().Minus(lines[i].Excess()) == x.Excess();
  }

  predicate Genuine(lines: seq<Line>) {
    forall i :: 0 <= i < |lines| ==>
      lines[i].Counts().NonNegative()
        && (lines[i].Direct? || (lines[i].reserved.NonNegative() && lines[i].account.period != ""))
  }

  lemma ChargeIncluded(lines: seq<Line>, i: nat)
    requires Genuine(lines) && i < |lines|
    ensures Owed(lines, lines[i].account).Minus(lines[i].Counts()).NonNegative()
  {
    PartIncluded(lines, |lines|, i, (x: Line) => x.Counts());
  }

  ghost predicate MarkersRight(w: World) {
    forall i :: i in w.books.finalized <==> 0 <= i < |w.lines| && w.lines[i].Final?
  }

  /** The books agree with the charges, for every account. */
  ghost predicate Conserved(w: World) {
    && Genuine(w.lines) && MarkersRight(w)
    && forall a: Account :: w.books.Used(a) == Owed(w.lines, a)
  }

  // ----- every step keeps the books -----

  /** Finalizing without the clamp at zero. */
  function FinalizeUnclamped(b: Books, r: Reservation, actual: Amount): Books {
    b.(finalized := b.finalized + {r.id}).WithUsed(r.account, b.Used(r.account).Plus(actual.Minus(r.reserved)))
  }

  /** On genuine reservations the clamp never changes a value. */
  lemma {:induction false} ClampIsIdle(w: World, i: nat, actual: Amount, current: Period)
    requires Conserved(w) && i < |w.lines| && w.lines[i].Open? && actual.NonNegative()
    ensures w.books.Used(w.lines[i].account).Plus(actual.Minus(w.lines[i].reserved)).NonNegative()
    ensures Finalize(w.books, Handle(w, i), actual, current).0 == FinalizeUnclamped(w.books, Handle(w, i), actual)
  {
    ChargeIncluded(w.lines, i);
    assert w.books.Used(w.lines[i].account) == Owed(w.lines, w.lines[i].account);
  }

  lemma SettleIs(w: World, b: Account, billed: Amount)
    requires billed.NonNegative()
    ensures SettleStep(w, b, billed)
         == w.(books := w.books.WithUsed(b, w.books.Used(b).Plus(billed)), lines := w.lines + [Direct(b, billed)])
  {
  }

  lemma FinalizeIs(w: World, i: nat, actual: Amount, current: Period)
    requires Conserved(w) && IsHandle(w, i) && actual.NonNegative() && w.lines[i].Open?
    ensures FinalizeStep(w, i, actual, current)
         == w.(books := FinalizeUnclamped(w.books, Handle(w, i), actual),
               lines := w.lines[i := Final(w.lines[i].account, w.lines[i].reserved, actual)])
  {
    ClampIsIdle(w, i, actual, current);
  }

  lemma FinalizeIsIdle(w: World, i: nat, actual: Amount, current: Period)
    requires MarkersRight(w) && !(IsHandle(w, i) && actual.NonNegative() && w.lines[i].Open?)
    ensures FinalizeStep(w, i, actual, current) == w
  {
  }

  /** Adding to one account's use adds nothing to another's. */
  lemma Booked(b: Books, a: Account, more: Amount, c: Account)
    ensures b.WithUsed(a, b.Used(a).Plus(more)).Used(c) == b.Used(c).Plus(if c == a then more else ZERO)
  {
    b.WithUsedUses(a, b.Used(a).Plus(more), c);
  }

  lemma ChargeKept(w: World, w': World, x: Line)
    requires Genuine(w.lines) && MarkersRight(w) && w'.lines == w.lines + [x] && w'.books.finalized == w.books.finalized
    requires !x.Final? && x.Counts().NonNegative() && (x.Open? ==> x.account.period != "")
    ensures Genuine(w'.lines) && MarkersRight(w')
  {
  }

  lemma ChargeCounted(w: World, w': World, x: Line, c: Account)
    requires w.books.Used(c) == Owed(w.lines, c) && w'.lines == w.lines + [x]
    requires w'.books.Used(c) == w.books.Used(c).Plus(if c == x.account then x.Counts() else ZERO)
    ensures w'.books.Used(c) == Owed(w'.lines, c)
  {
    OwedMore(w.lines, x, c);
  }

  /** A new charge that the books took in full keeps them right. */
  lemma ChargeConserves(w: World, w': World, x: Line)
    requires Conserved(w) && w'.lines == w.lines + [x]
    requires !x.Final? && x.Counts().NonNegative() && (x.Open? ==> x.account.period != "")
    requires w'.books == w.books.WithUsed(x.account, w.books.Used(x.account).Plus(x.Counts()))
    ensures Conserved(w')
  {
    ChargeKept(w, w', x);
    forall c: Account
      ensures w'.books.Used(c) == Owed(w'.lines, c)
    {
      Booked(w.books, x.account, x.Counts(), c);
      ChargeCounted(w, w', x, c);
    }
  }

  lemma ReserveConserves(w: World, a: Account, ask: Amount)
    requires Conserved(w) && a.period != ""
    ensures Conserved(ReserveStep(w, a, ask).0)
  {
    var (books, outcome) := Reserve(w.books, a, ask, |w.lines|);
    if outcome.Granted? {
      assert books == w.books.WithUsed(a, w.books.Used(a).Plus(ask));
      ChargeConserves(w, w.(books := books, lines := w.lines + [Open(a, ask)]), Open(a, ask));
    }
  }

  lemma {:induction false} FinalizeConserves(w: World, i: nat, actual: Amount, current: Period)
    requires Conserved(w)
    ensures Conserved(FinalizeStep(w, i, actual, current))
  {
    var w' := FinalizeStep(w, i, actual, current);
    if IsHandle(w, i) && actual.NonNegative() && w.lines[i].Open? {
      var x := Final(w.lines[i].account, w.lines[i].reserved, actual);
      ChargeIncluded(w.lines, i);
      FinalizeIs(w, i, actual, current);
      forall c: Account
        ensures w'.books.Used(c) == Owed(w'.lines, c)
      {
        OwedChange(w.lines, i, x, c);
        assert w.books.Used(c) == Owed(w.lines, c);
      }
    } else {
      FinalizeIsIdle(w, i, actual, current);
    }
  }

  lemma SettleConserves(w: World, a: Account, billed: Amount)
    requires Conserved(w)
    ensures Conserved(SettleStep(w, a, billed))
  {
    if billed.NonNegative() {
      SettleIs(w, a, billed);
      ChargeConserves(w, SettleStep(w, a, billed), Direct(a, billed));
    }
  }

  /** Reservations are made in a month; the source never makes one without. */
  predicate Dated(c: Call) {
    c.ReserveCall? ==> c.account.period != ""
  }

  lemma {:induction false} StepConserves(w: World, c: Call)
    requires Conserved(w) && Dated(c)
    ensures Conserved(Step(w, c))
  {
    match c
    case ReserveCall(a, ask) => ReserveConserves(w, a, ask);
    case FinalizeCall(i, actual, current) => FinalizeConserves(w, i, actual, current);
    case SettleCall(a, billed) => SettleConserves(w, a, billed);
    case SetBudgetCall(_, _, _) =>
      forall a: Account
        ensures Step(w, c).books.Used(a) == w.books.Used(a)
      {
      }
  }

  predicate AllDated(cs: seq<Call>) {
    forall i :: 0 <= i < |cs| ==> Dated(cs[i])
  }

  lemma {:induction false} RunConserves(w: World, cs: seq<Call>)
    requires Conserved(w) && AllDated(cs)
    ensures Conserved(Run(w, cs))
  {
    if cs != [] {
      RunConserves(w, cs[..|cs| - 1]);
      StepConserves(Run(w, cs[..|cs| - 1]), cs[|cs| - 1]);
    }
  }

  /**
    Conservation: after every run each tenant and month has used exactly what its finalized
    reservations cost, plus what its open ones hold, plus what was settled without a reservation.
   */
  lemma {:induction false} Conservation(tokenLimits: map<string, int>, dollarLimits: map<string, int>, cs: seq<Call>)
    requires AllDated(cs)
    ensures Conserved(Run(Start(tokenLimits, dollarLimits), cs))
  {
    RunConserves(Start(tokenLimits, dollarLimits), cs);
  }

  // ----- books that are not empty at first -----

  /** Books to begin with: no counter is negative, and no reservation is finalized yet. */
  predicate MayOpen(b: Books) {
    && b.finalized == {}
    && (forall a :: a in b.usage ==> b.usage[a] >= 0) && (forall a :: a in b.spent ==> b.spent[a] >= 0)
  }

  predicate AllSettled(lines: seq<Line>) {
    forall i :: 0 <= i < |lines| ==> lines[i].Direct? && lines[i].billed.NonNegative()
  }

  /** The counters of these accounts as if they had been settled. */
  ghost predicate Accounts(b: Books, accounts: set<Account>, lines: seq<Line>) {
    forall a: Account :: Owed(lines, a) == if a in accounts then b.Used(a) else ZERO
  }

  lemma OpenOne(b: Books, others: set<Account>, x: Account, rest: seq<Line>, a: Account)
    requires x !in others && Owed(rest, a) == (if a in others then b.Used(a) else ZERO)
    ensures Owed(rest + [Direct(x, b.Used(x))], a) == if a in others || a == x then b.Used(a) else ZERO
  {
    OwedMore(rest, Direct(x, b.Used(x)), a);
  }

  lemma {:induction false} OpenAccounts(b: Books, accounts: set<Account>) returns (lines: seq<Line>)
    requires MayOpen(b)
    ensures AllSettled(lines) && Accounts(b, accounts, lines)
    decreases |accounts|
  {
    if accounts == {} {
      return [];
    }
    var x :| x in accounts;
    var others := accounts - {x};
    var rest := OpenAccounts(b, others);
    lines := rest + [Direct(x, b.Used(x))];
    forall a: Account
      ensures Owed(lines, a) == if a in accounts then b.Used(a) else ZERO
    {
      OpenOne(b, others, x, rest, a);
      assert a in accounts <==> a in others || a == x;
    }
  }

  /** Any such books are those of a conserved world: their counters stand for settlements of an earlier run. */
  lemma OpenWorld(b: Books) returns (w: World)
    requires MayOpen(b)
    ensures w.books == b && Conserved(w) && forall i :: 0 <= i < |w.lines| ==> w.lines[i].Direct?
  {
    var accounts := b.usage.Keys + b.spent.Keys;
    var lines := OpenAccounts(b, accounts);
    w := World(b, lines, b.tokenLimits, b.dollarLimits);
    forall a: Account
      ensures b.Used(a) == Owed(lines, a)
    {
      assert a !in accounts ==> b.Used(a) == ZERO;
    }
  }

  // ----- no oversubscription -----

  /** Usage within the limits, the dollar one only if there is one, apart from the overrun. */
  predicate Under(used: Amount, overrun: Amount, quota: int, dollars: Option<int>) {
    && used.tokens <= Max(0, quota) + overrun.tokens
    && (dollars.Some? ==> used.cost <= Max(0, dollars.value) + overrun.cost)
  }

  predicate WithinPeak(w: World, a: Account) {
    Under(w.books.Used(a), Overrun(w.lines, a), TokenPeak(w, a.tenant), Lookup(w.dollarPeak, a.tenant))
  }

  predicate AtMost(quota: int, dollars: Option<int>, quotaPeak: int, dollarPeak: Option<int>) {
    quota <= quotaPeak && (dollarPeak.Some? ==> dollars.Some? && dollars.value <= dollarPeak.value)
  }

  predicate PeakCovers(w: World, tenant: string) {
    AtMost(w.books.TokenLimit(tenant), Lookup(w.books.dollarLimits, tenant),
           TokenPeak(w, tenant), Lookup(w.dollarPeak, tenant))
  }

  predicate SameLimits(w: World, w': World) {
    && w'.books.tokenLimits == w.books.tokenLimits && w'.books.dollarLimits == w.books.dollarLimits
    && w'.tokenPeak == w.tokenPeak && w'.dollarPeak == w.dollarPeak
  }

  lemma UnderGrows(used: Amount, overrun: Amount, more: Amount, excess: Amount, quota: int, dollars: Option<int>)
    requires Under(used, overrun, quota, dollars) && more.tokens <= excess.tokens && more.cost <= excess.cost
    ensures Under(used.Plus(more), overrun.Plus(excess), quota, dollars)
  {
  }

  /** Usage that rises by no more than the overrun stays within the peak. */
  lemma KeepsWithin(w: World, w': World, a: Account, more: Amount, excess: Amount)
    requires SameLimits(w, w') && WithinPeak(w, a) && PeakCovers(w, a.tenant)
    requires w'.books.Used(a) == w.books.Used(a).Plus(more) && Overrun(w'.lines, a) == Overrun(w.lines, a).Plus(excess)
    requires more.tokens <= excess.tokens && more.cost <= excess.cost
    ensures WithinPeak(w', a) && PeakCovers(w', a.tenant)
  {
    UnderGrows(w.books.Used(a), Overrun(w.lines, a), more, excess, TokenPeak(w, a.tenant),
      Lookup(w.dollarPeak, a.tenant));
  }

  predicate Fits(b: Books, tenant: string, used: Amount) {
    used.tokens <= b.TokenLimit(tenant) && (tenant in b.dollarLimits ==> used.cost <= b.dollarLimits[tenant])
  }

  /** Usage under the limits in force is within the peak. */
  lemma FitsWithin(w: World, w': World, a: Account)
    requires SameLimits(w, w') && PeakCovers(w, a.tenant) && Overrun(w'.lines, a).NonNegative()
    requires Fits(w.books, a.tenant, w'.books.Used(a))
    ensures WithinPeak(w', a) && PeakCovers(w', a.tenant)
  {
  }

  lemma GrantFits(b: Books, a: Account, ask: Amount, id: nat)
    requires Reserve(b, a, ask, id).1.Granted?
    ensures Reserve(b, a, ask, id).0 == b.WithUsed(a, b.Used(a).Plus(ask))
    ensures Fits(b, a.tenant, b.Used(a).Plus(ask))
  {
  }

  /** A granted reservation fits under the limits in force. */
  lemma ReserveWithinPeak(w: World, b: Account, ask: Amount, a: Account)
    requires WithinPeak(w, a) && PeakCovers(w, a.tenant) && Overrun(w.lines, a).NonNegative()
    ensures var w' := ReserveStep(w, b, ask).0; WithinPeak(w', a) && PeakCovers(w', a.tenant)
  {
    if Reserve(w.books, b, ask, |w.lines|).1.Granted? {
      GrantFits(w.books, b, ask, |w.lines|);
      GrantWithinPeak(w, ReserveStep(w, b, ask).0, b, ask, a);
    }
  }

  lemma GrantWithinPeak(w: World, w': World, b: Account, ask: Amount, a: Account)
    requires WithinPeak(w, a) && PeakCovers(w, a.tenant) && Overrun(w.lines, a).NonNegative()
    requires w' == w.(books := w.books.WithUsed(b, w.books.Used(b).Plus(ask)), lines := w.lines + [Open(b, ask)])
    requires Fits(w.books, b.tenant, w.books.Used(b).Plus(ask))
    ensures WithinPeak(w', a) && PeakCovers(w', a.tenant)
  {
    OverrunMore(w.lines, Open(b, ask), a);
    Booked(w.books, b, ask, a);
    if a == b {
      FitsWithin(w, w', a);
    } else {
      KeepsWithin(w, w', a, ZERO, ZERO);
    }
  }

  lemma SettleWithinPeak(w: World, b: Account, billed: Amount, a: Account)
    requires WithinPeak(w, a) && PeakCovers(w, a.tenant)
    ensures var w' := SettleStep(w, b, billed); WithinPeak(w', a) && PeakCovers(w', a.tenant)
  {
    if billed.NonNegative() {
      var part := if a == b then billed else ZERO;
      SettleIs(w, b, billed);
      Booked(w.books, b, billed, a);
      OverrunMore(w.lines, Direct(b, billed), a);
      KeepsWithin(w, SettleStep(w, b, billed), a, part, part);
    }
  }

  lemma ClosingUsed(b: Books, r: Reservation, actual: Amount, a: Account)
    ensures var b' := FinalizeUnclamped(b, r, actual);
            && b'.tokenLimits == b.tokenLimits && b'.dollarLimits == b.dollarLimits
            && b'.Used(a) == b.Used(a).Plus(if a == r.account then actual.Minus(r.reserved) else ZERO)
  {
    var marked := b.(finalized := b.finalized + {r.id});
    marked.WithUsedUses(r.account, b.Used(r.account).Plus(actual.Minus(r.reserved)), a);
  }

  lemma ExcessCovers(actual: Amount, reserved: Amount)
    ensures var d, e := actual.Minus(reserved), actual.Minus(reserved).Clamped();
            d.tokens <= e.tokens && d.cost <= e.cost
  {
  }

  /** What a closed reservation moves is at most its excess. */
  lemma ClosingWithinPeak(w: World, w': World, x: Line, a: Account)
    requires SameLimits(w, w') && WithinPeak(w, a) && PeakCovers(w, a.tenant) && x.Final?
    requires w'.books.Used(a) == w.books.Used(a).Plus(if a == x.account then x.actual.Minus(x.reserved) else ZERO)
    requires Overrun(w'.lines, a) == Overrun(w.lines, a).Plus(if a == x.account then x.Excess() else ZERO)
    ensures WithinPeak(w', a) && PeakCovers(w', a.tenant)
  {
    if a == x.account {
      ExcessCovers(x.actual, x.reserved);
      KeepsWithin(w, w', a, x.actual.Minus(x.reserved), x.actual.Minus(x.reserved).Clamped());
    } else {
      KeepsWithin(w, w', a, ZERO, ZERO);
    }
  }

  lemma FinalizeWithinPeak(w: World, i: nat, actual: Amount, current: Period, a: Account)
    requires Conserved(w) && WithinPeak(w, a) && PeakCovers(w, a.tenant)
    ensures var w' := FinalizeStep(w, i, actual, current); WithinPeak(w', a) && PeakCovers(w', a.tenant)
  {
    if IsHandle(w, i) && actual.NonNegative() && w.lines[i].Open? {
      FinalizeIs(w, i, actual, current);
      var x := Final(w.lines[i].account, w.lines[i].reserved, actual);
      OverrunClose(w.lines, i, x, a);
      ClosingUsed(w.books, Handle(w, i), actual, a);
      ClosingWithinPeak(w, FinalizeStep(w, i, actual, current), x, a);
    } else {
      FinalizeIsIdle(w, i, actual, current);
    }
  }

  lemma SetBudgetWithinPeak(w: World, t: string, quota: Option<int>, dollars: Option<int>, a: Account)
    requires WithinPeak(w, a) && PeakCovers(w, a.tenant)
    ensures var w' := Step(w, SetBudgetCall(t, quota, dollars));
            WithinPeak(w', a) && PeakCovers(w', a.tenant)
  {
    var w' := Step(w, SetBudgetCall(t, quota, dollars));
    SetBudgetUses(w.books, t, quota, dollars, a);
    PeakRises(w, t, quota, dollars, a.tenant);
    assert w'.lines == w.lines;
  }

  lemma SetBudgetUses(b: Books, t: string, quota: Option<int>, dollars: Option<int>, a: Account)
    ensures SetBudget(b, t, quota, dollars).Used(a) == b.Used(a)
  {
  }

  lemma PeakRises(w: World, t: string, quota: Option<int>, dollars: Option<int>, tenant: string)
    requires PeakCovers(w, tenant)
    ensures var w' := Step(w, SetBudgetCall(t, quota, dollars));
            && TokenPeak(w, tenant) <= TokenPeak(w', tenant) && PeakCovers(w', tenant)
            && (tenant in w'.dollarPeak ==> tenant in w.dollarPeak && w.dollarPeak[tenant] <= w'.dollarPeak[tenant])
  {
  }

  lemma {:induction false} StepWithinPeak(w: World, c: Call, a: Account)
    requires Conserved(w) && WithinPeak(w, a) && PeakCovers(w, a.tenant)
    ensures WithinPeak(Step(w, c), a) && PeakCovers(Step(w, c), a.tenant)
  {
    TotalNonNegative(w.lines, |w.lines|, a, (x: Line) => x.Excess());
    match c
    case ReserveCall(b, ask) => ReserveWithinPeak(w, b, ask, a);
    case SettleCall(b, billed) => SettleWithinPeak(w, b, billed, a);
    case FinalizeCall(i, actual, current) => FinalizeWithinPeak(w, i, actual, current, a);
    case SetBudgetCall(t, quota, dollars) => SetBudgetWithinPeak(w, t, quota, dollars, a);
  }

  /**
    No oversubscription: however the requests interleave, an account's usage exceeds the highest limit
    that was ever in force by no more than what its finalized reservations used beyond their estimates,
    plus what was settled without a reservation. The same holds for dollars while a dollar limit exists.
   */
  lemma {:induction false} NoOversubscription(tokenLimits: map<string, int>, dollarLimits: map<string, int>,
          cs: seq<Call>, a: Account)
    requires AllDated(cs)
    ensures var w := Run(Start(tokenLimits, dollarLimits), cs); WithinPeak(w, a) && PeakCovers(w, a.tenant)
  {
    if cs != [] {
      Conservation(tokenLimits, dollarLimits, cs[..|cs| - 1]);
      NoOversubscription(tokenLimits, dollarLimits, cs[..|cs| - 1], a);
      StepWithinPeak(Run(Start(tokenLimits, dollarLimits), cs[..|cs| - 1]), cs[|cs| - 1], a);
    }
  }

  predicate Lowers(w: World, c: Call, tenant: string) {
    c.SetBudgetCall? && c.tenant == tenant && c.quota.Some? && c.quota.value < w.books.TokenLimit(tenant)
  }

  /** No call of the run lowers the tenant's token quota. */
  predicate NeverLowers(w: World, cs: seq<Call>, tenant: string) {
    cs != [] ==> NeverLowers(w, cs[..|cs| - 1], tenant) && !Lowers(Run(w, cs[..|cs| - 1]), cs[|cs| - 1], tenant)
  }

  lemma OnlySetBudgetMovesLimits(w: World, c: Call)
    requires !c.SetBudgetCall?
    ensures SameLimits(w, Step(w, c))
  {
  }

  lemma PeakStep(w: World, c: Call, tenant: string)
    requires !Lowers(w, c, tenant) && TokenPeak(w, tenant) == w.books.TokenLimit(tenant)
    ensures TokenPeak(Step(w, c), tenant) == Step(w, c).books.TokenLimit(tenant)
  {
    if !c.SetBudgetCall? {
      OnlySetBudgetMovesLimits(w, c);
    }
  }

  lemma {:induction false} PeakIsLimit(w: World, cs: seq<Call>, tenant: string)
    requires NeverLowers(w, cs, tenant) && TokenPeak(w, tenant) == w.books.TokenLimit(tenant)
    ensures TokenPeak(Run(w, cs), tenant) == Run(w, cs).books.TokenLimit(tenant)
  {
    if cs != [] {
      PeakIsLimit(w, cs[..|cs| - 1], tenant);
      PeakStep(Run(w, cs[..|cs| - 1]), cs[|cs| - 1], tenant);
    }
  }

  /** With a quota that is never lowered, the bound is the quota now in force. */
  lemma {:induction false} QuotaHolds(tokenLimits: map<string, int>, dollarLimits: map<string, int>, cs: seq<Call>,
          a: Account)
    requires AllDated(cs) && NeverLowers(Start(tokenLimits, dollarLimits), cs, a.tenant)
    ensures var w := Run(Start(tokenLimits, dollarLimits), cs);
            w.books.Used(a).tokens <= Max(0, w.books.TokenLimit(a.tenant)) + Overrun(w.lines, a).tokens
  {
    NoOversubscription(tokenLimits, dollarLimits, cs, a);
    PeakIsLimit(Start(tokenLimits, dollarLimits), cs, a.tenant);
  }

  // ----- exactly what is granted -----

  /** The token quota that was configured last. */
  function LastQuota(limits: map<string, int>, cs: seq<Call>, tenant: string): int {
    if cs == [] then Lookup(limits, tenant).GetOr(1_000_000)
    else
      var last := cs[|cs| - 1];
      if last.SetBudgetCall? && last.tenant == tenant && last.quota.Some? then last.quota.value
      else LastQuota(limits, cs[..|cs| - 1], tenant)
  }

  /** The dollar limit that was configured last, if any ever was. */
  function LastDollars(limits: map<string, int>, cs: seq<Call>, tenant: string): Option<int> {
    if cs == [] then Lookup(limits, tenant)
    else
      var last := cs[|cs| - 1];
      if last.SetBudgetCall? && last.tenant == tenant && last.dollars.Some? then last.dollars
      else LastDollars(limits, cs[..|cs| - 1], tenant)
  }

  lemma SetBudgetSets(b: Books, t: string, quota: Option<int>, dollars: Option<int>, tenant: string)
    ensures var b' := SetBudget(b, t, quota, dollars);
            && b'.TokenLimit(tenant) == (if t == tenant && quota.Some? then quota.value else b.TokenLimit(tenant))
            && Lookup(b'.dollarLimits, tenant)
               == (if t == tenant && dollars.Some? then dollars else Lookup(b.dollarLimits, tenant))
  {
  }

  /** The limits in force after a run are the ones configured last. */
  lemma {:induction false} LimitsInForce(tokenLimits: map<string, int>, dollarLimits: map<string, int>, cs: seq<Call>,
                                         tenant: string)
    ensures var b := Run(Start(tokenLimits, dollarLimits), cs).books;
            && b.TokenLimit(tenant) == LastQuota(tokenLimits, cs, tenant)
            && Lookup(b.dollarLimits, tenant) == LastDollars(dollarLimits, cs, tenant)
  {
    if cs != [] {
      var front, last := cs[..|cs| - 1], cs[|cs| - 1];
      var w := Run(Start(tokenLimits, dollarLimits), front);
      LimitsInForce(tokenLimits, dollarLimits, front, tenant);
      if last.SetBudgetCall? {
        SetBudgetSets(w.books, last.tenant, last.quota, last.dollars, tenant);
      } else {
        OnlySetBudgetMovesLimits(w, last);
      }
    }
  }

  /** The request fits beside what is owed already, under both limits. */
  predicate FitsBeside(owed: Amount, ask: Amount, quota: int, dollars: Option<int>) {
    && owed.tokens + ask.tokens <= quota
    && (dollars.Some? ==> owed.cost + ask.cost <= dollars.value)
  }

  /** The outcome of a reservation, and what it says. */
  predicate Answers(outcome: Outcome, a: Account, ask: Amount, owed: Amount, quota: int, dollars: Option<int>) {
    match outcome
    case BadValue => !ask.NonNegative()
    case TokensDenied(used, limit) =>
      ask.NonNegative() && used == owed.tokens && limit == quota && used + ask.tokens > limit
    case DollarsDenied(spent, ceiling) =>
      ask.NonNegative() && dollars == Some(ceiling) && spent == owed.cost && spent + ask.cost > ceiling
    case Granted(r) => ask.NonNegative() && FitsBeside(owed, ask, quota, dollars) && r.account == a && r.reserved == ask
  }

  lemma ReserveAnswers(b: Books, a: Account, ask: Amount, id: nat)
    ensures var outcome := Reserve(b, a, ask, id).1;
            && Answers(outcome, a, ask, b.Used(a), b.TokenLimit(a.tenant), Lookup(b.dollarLimits, a.tenant))
            && (outcome.Granted? <==>
                  ask.NonNegative()
                  && FitsBeside(b.Used(a), ask, b.TokenLimit(a.tenant), Lookup(b.dollarLimits, a.tenant)))
  {
  }

  /**
    After every run a reservation is granted if and only if it fits, beside what the account's open reservations
    hold and its closed ones and settlements cost, under the limits configured last; a refusal names the numbers.
   */
  lemma GrantedExactlyWhenItFits(tokenLimits: map<string, int>, dollarLimits: map<string, int>, cs: seq<Call>,
                                 a: Account, ask: Amount)
    requires AllDated(cs)
    ensures var w := Run(Start(tokenLimits, dollarLimits), cs);
            var quota, dollars := LastQuota(tokenLimits, cs, a.tenant), LastDollars(dollarLimits, cs, a.tenant);
            var outcome := ReserveStep(w, a, ask).1;
            && Answers(outcome, a, ask, Owed(w.lines, a), quota, dollars)
            && (outcome.Granted? <==> ask.NonNegative() && FitsBeside(Owed(w.lines, a), ask, quota, dollars))
  {
    var w := Run(Start(tokenLimits, dollarLimits), cs);
    Conservation(tokenLimits, dollarLimits, cs);
    LimitsInForce(tokenLimits, dollarLimits, cs, a.tenant);
    ReserveAnswers(w.books, a, ask, |w.lines|);
    assert w.books.Used(a) == Owed(w.lines, a);
  }

  /** What finalizing and settling report is the account's usage afterwards; only a negative amount is refused. */
  lemma TotalsAreUsage(b: Books, r: Reservation, a: Account, amount: Amount, current: Period)
    ensures var (finalized, total) := Finalize(b, r, amount, current);
            (total.None? <==> !amount.NonNegative())
              && (total.Some? ==> total.value == finalized.Used(Charged(r, current)))
    ensures var (settled, total) := Settle(b, a, amount);
            (total.None? <==> !amount.NonNegative()) && (total.Some? ==> total.value == settled.Used(a))
  {
    var charged := Charged(r, current);
    var v := b.Used(charged).Plus(amount.Minus(r.reserved)).Clamped();
    b.(finalized := b.finalized + {r.id}).WithUsedUses(charged, v, charged);
    b.WithUsedUses(a, b.Used(a).Plus(amount), a);
  }
}
