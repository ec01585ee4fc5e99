/**
  The same protocol as two server-side scripts over a flat key space. The finalize script has no clamp;
  it needs none, because on genuine reservations the clamp of the locked form never changes a value.
 */
module BudgetLua {
  import opened Wrappers
  import opened Budget
  import opened BudgetRuns

  datatype Key =
    | UsageTokens(account: Account)
    | UsageDollars(account: Account)
    | LimitTokens(tenant: string)
    | LimitDollars(tenant: string)
    | FinalizedMarker(id: nat)

  type Store = map<Key, int>

  datatype Reply = Reply(allowed: bool, used: int, limit: int, spent: int, ceiling: int)

  function IncrBy(s: Store, k: Key, n: int): Store {
    s[k := Lookup(s, k).GetOr(0) + n]
  }

  /** `_RESERVE_LUA`; -1 stands for "no dollar limit". */
  function ReserveScript(s: Store, k1: Key, k2: Key, k3: Key, k4: Key, tokens: int, cost: int, quota: int)
    : (Store, Reply)
  {
    var used := Lookup(s, k1).GetOr(0);
    var spent := Lookup(s, k2).GetOr(0);
    var limit := Lookup(s, k3).GetOr(quota);
    if used + tokens > limit then (s, Reply(false, used, limit, spent, -1))
    else if k4 in s && spent + cost > s[k4] then (s, Reply(false, used, limit, spent, s[k4]))
    else (IncrBy(IncrBy(s, k1, tokens), k2, cost),
      Reply(true, used + tokens, limit, spent + cost, Lookup(s, k4).GetOr(-1)))
  }

  /** `_FINALIZE_LUA`, with its marker unexpired. */
  function FinalizeScript(s: Store, k1: Key, k2: Key, k3: Key, deltaTokens: int, deltaCost: int): Store {
    if k3 in s then s else IncrBy(IncrBy(s[k3 := 1], k1, deltaTokens), k2, deltaCost)
  }

  /** `reserve_budget` around the script: a reply's dollar limit counts only when it is not negative. */
  function ReserveViaScript(s: Store, a: Account, ask: Amount, id: nat): (Store, Outcome) {
    if !ask.NonNegative() then (s, BadValue)
    else
      var (s', reply) := ReserveScript(
        s, UsageTokens(a), UsageDollars(a), LimitTokens(a.tenant), LimitDollars(a.tenant),
                                       ask.tokens, ask.cost, DEFAULT_MONTHLY_TOKEN_QUOTA);
      (s', if reply.allowed then Granted(Reservation(a, ask, id))
       else if reply.ceiling >= 0 then DollarsDenied(reply.spent, reply.ceiling)
       else TokensDenied(reply.used, reply.limit))
  }

  function FinalizeViaScript(s: Store, r: Reservation, actual: Amount, current: Period): Store {
    var a := Charged(r, current);
    if !actual.NonNegative() then s
    else FinalizeScript(s, UsageTokens(a), UsageDollars(a), FinalizedMarker(r.id),
                        actual.tokens - r.reserved.tokens, actual.cost - r.reserved.cost)
  }

  function SettleInRedis(s: Store, a: Account, billed: Amount): Store {
    if !billed.NonNegative() then s
    else IncrBy(IncrBy(s, UsageTokens(a), billed.tokens), UsageDollars(a), billed.cost)
  }

  function SetBudgetInRedis(s: Store, tenant: string, quota: Option<int>, dollars: Option<int>): Store {
    var s := if quota.Some? then s[LimitTokens(tenant) := quota.value] else s;
    if dollars.Some? then s[LimitDollars(tenant) := dollars.value] else s
  }

  datatype LuaWorld = LuaWorld(store: Store, lines: seq<Line>)

  function LuaStep(v: LuaWorld, c: Call): LuaWorld {
    match c
    case ReserveCall(a, ask) =>
      var (s, outcome) := ReserveViaScript(v.store, a, ask, |v.lines|);
      LuaWorld(s, if outcome.Granted? then v.lines + [Open(a, ask)] else v.lines)
    case FinalizeCall(i, actual, current) =>
      if i >= |v.lines| || v.lines[i].Direct? then v
      else
        var line := v.lines[i];
        LuaWorld(FinalizeViaScript(v.store, Reservation(line.account, line.reserved, i), actual, current),
                 if line.Open? && actual.NonNegative() then v.lines[i := Final(line.account, line.reserved, actual)]
                   else v.lines)
    case SettleCall(a, billed) =>
      LuaWorld(SettleInRedis(v.store, a, billed),
               if billed.NonNegative() then v.lines + [Direct(a, billed)] else v.lines)
    case SetBudgetCall(t, quota, dollars) => v.(store := SetBudgetInRedis(v.store, t, quota, dollars))
  }

  function LuaRun(v: LuaWorld, cs: seq<Call>): LuaWorld {
    if cs == [] then v else LuaStep(LuaRun(v, cs[..|cs| - 1]), cs[|cs| - 1])
  }

  // ----- refinement -----

  function Counters(s: Store, a: Account): Amount {
    Amount(Lookup(s, UsageTokens(a)).GetOr(0), Lookup(s, UsageDollars(a)).GetOr(0))
  }

  ghost predicate SameLimits(s: Store, b: Books) {
    forall t: string ::
      Lookup(s, LimitTokens(t)) == Lookup(b.tokenLimits, t) && Lookup(s, LimitDollars(t)) == Lookup(b.dollarLimits, t)
  }

  ghost predicate SameCounters(s: Store, b: Books) {
    forall a: Account :: Counters(s, a) == b.Used(a)
  }

  ghost predicate SameMarkers(s: Store, b: Books) {
    forall i: nat :: FinalizedMarker(i) in s <==> i in b.finalized
  }

  ghost predicate Refines(v: LuaWorld, w: World) {
    v.lines == w.lines && SameLimits(v.store, w.books) && SameCounters(v.store, w.books)
      && SameMarkers(v.store, w.books)
  }

  /** Two increments of one account's counters. */
  lemma IncrementsCount(s: Store, b: Books, a: Account, d: Amount)
    requires SameLimits(s, b) && SameCounters(s, b) && SameMarkers(s, b)
    ensures var s' := IncrBy(IncrBy(s, UsageTokens(a), d.tokens), UsageDollars(a), d.cost);
            var b' := b.WithUsed(a, b.Used(a).Plus(d));
            SameLimits(s', b') && SameCounters(s', b') && SameMarkers(s', b')
  {
    var s' := IncrBy(IncrBy(s, UsageTokens(a), d.tokens), UsageDollars(a), d.cost);
    var b' := b.WithUsed(a, b.Used(a).Plus(d));
    forall c: Account
      ensures Counters(s', c) == b'.Used(c)
    {
      assert Counters(s, c) == b.Used(c) && Counters(s, a) == b.Used(a);
    }
    forall t: string
      ensures Lookup(s', LimitTokens(t)) == Lookup(s, LimitTokens(t))
           && Lookup(s', LimitDollars(t)) == Lookup(s, LimitDollars(t))
    {
    }
  }

  /**
    The script and the locked section grant the same requests; they differ only in how they word a refusal under a
    negative dollar limit.
   */
  lemma ReserveAgrees(v: LuaWorld, w: World, a: Account, ask: Amount)
    requires Refines(v, w)
    ensures var x, y := ReserveViaScript(v.store, a, ask, |v.lines|).1, Reserve(w.books, a, ask, |w.lines|).1;
            && (x.Granted? <==> y.Granted?)
            && (x == y <==> !(y.DollarsDenied? && y.ceiling < 0))
    ensures Refines(LuaStep(v, ReserveCall(a, ask)), ReserveStep(w, a, ask).0)
  {
    assert Counters(v.store, a) == w.books.Used(a);
    assert Lookup(v.store, LimitTokens(a.tenant)) == Lookup(w.books.tokenLimits, a.tenant);
    assert Lookup(v.store, LimitDollars(a.tenant)) == Lookup(w.books.dollarLimits, a.tenant);
    if Reserve(w.books, a, ask, |w.lines|).1.Granted? {
      IncrementsCount(v.store, w.books, a, ask);
      assert Reserve(w.books, a, ask, |w.lines|).0 == w.books.WithUsed(a, w.books.Used(a).Plus(ask));
    }
  }

  lemma MarkerAgrees(s: Store, b: Books, i: nat)
    requires SameLimits(s, b) && SameCounters(s, b) && SameMarkers(s, b)
    ensures var s' := s[FinalizedMarker(i) := 1];
            var b' := b.(finalized := b.finalized + {i});
            SameLimits(s', b') && SameCounters(s', b') && SameMarkers(s', b')
  {
    var s' := s[FinalizedMarker(i) := 1];
    forall a: Account
      ensures Counters(s', a) == Counters(s, a) && b.(finalized := b.finalized + {i}).Used(a) == b.Used(a)
    {
    }
    forall t: string
      ensures Lookup(s', LimitTokens(t)) == Lookup(s, LimitTokens(t))
           && Lookup(s', LimitDollars(t)) == Lookup(s, LimitDollars(t))
    {
    }
  }

  /** One finalization of an open reservation: the script's counters are the unclamped ones. */
  lemma FinalizeOpenAgrees(s: Store, b: Books, r: Reservation, actual: Amount, current: Period)
    requires SameLimits(s, b) && SameCounters(s, b) && SameMarkers(s, b)
    requires actual.NonNegative() && r.account.period != "" && r.id !in b.finalized
    ensures var s' := FinalizeViaScript(s, r, actual, current);
            var b' := FinalizeUnclamped(b, r, actual);
            SameLimits(s', b') && SameCounters(s', b') && SameMarkers(s', b')
  {
    MarkerAgrees(s, b, r.id);
    var s1 := s[FinalizedMarker(r.id) := 1];
    var b1 := b.(finalized := b.finalized + {r.id});
    IncrementsCount(s1, b1, r.account, actual.Minus(r.reserved));
    assert b1.Used(r.account) == b.Used(r.account);
    assert FinalizedMarker(r.id) !in s;
  }

  lemma FinalizeAgrees(v: LuaWorld, w: World, i: nat, actual: Amount, current: Period)
    requires Refines(v, w) && Conserved(w)
    ensures Refines(LuaStep(v, FinalizeCall(i, actual, current)), FinalizeStep(w, i, actual, current))
  {
    if IsHandle(w, i) && actual.NonNegative() {
      assert FinalizedMarker(i) in v.store <==> i in w.books.finalized;
      if w.lines[i].Open? {
        ClampIsIdle(w, i, actual, current);
        FinalizeOpenAgrees(v.store, w.books, Handle(w, i), actual, current);
        assert FinalizeStep(w, i, actual, current).books == FinalizeUnclamped(w.books, Handle(w, i), actual);
      } else {
        assert FinalizeStep(w, i, actual, current) == w;
        assert LuaStep(v, FinalizeCall(i, actual, current)) == v;
      }
    }
  }

  lemma SettleAgrees(v: LuaWorld, w: World, a: Account, billed: Amount)
    requires Refines(v, w)
    ensures Refines(LuaStep(v, SettleCall(a, billed)), SettleStep(w, a, billed))
  {
    if billed.NonNegative() {
      IncrementsCount(v.store, w.books, a, billed);
      assert SettleStep(w, a, billed).books == w.books.WithUsed(a, w.books.Used(a).Plus(billed));
    }
  }

  lemma SetBudgetAgrees(v: LuaWorld, w: World, tenant: string, quota: Option<int>, dollars: Option<int>)
    requires Refines(v, w)
    ensures Refines(LuaStep(v, SetBudgetCall(tenant, quota, dollars)), Step(w, SetBudgetCall(tenant, quota, dollars)))
  {
    var s, b := v.store, w.books;
    var s' := SetBudgetInRedis(s, tenant, quota, dollars);
    var b' := SetBudget(b, tenant, quota, dollars);
    assert Step(w, SetBudgetCall(tenant, quota, dollars)).books == b';
    forall a: Account
      ensures Counters(s', a) == b'.Used(a)
    {
      assert Counters(s, a) == b.Used(a);
    }
    forall t: string
      ensures Lookup(s', LimitTokens(t)) == Lookup(b'.tokenLimits, t)
           && Lookup(s', LimitDollars(t)) == Lookup(b'.dollarLimits, t)
    {
      assert Lookup(s, LimitTokens(t)) == Lookup(b.tokenLimits, t)
        && Lookup(s, LimitDollars(t)) == Lookup(b.dollarLimits, t);
    }
    assert SameMarkers(s', b');
  }

  /**
    Refinement: from any conserved state, the scripts and the locked sections stay in step over every run:
    the same reservations granted, the same counters, limits and markers.
   */
  lemma {:induction false} ScriptsRefineLocks(v: LuaWorld, w: World, cs: seq<Call>)
    requires AllDated(cs) && Conserved(w) && Refines(v, w)
    ensures Refines(LuaRun(v, cs), Run(w, cs))
  {
    if cs != [] {
      var front, c := cs[..|cs| - 1], cs[|cs| - 1];
      ScriptsRefineLocks(v, w, front);
      RunConserves(w, front);
      match c
      case ReserveCall(a, ask) => ReserveAgrees(LuaRun(v, front), Run(w, front), a, ask);
      case FinalizeCall(i, actual, current) => FinalizeAgrees(LuaRun(v, front), Run(w, front), i, actual, current);
      case SettleCall(a, billed) => SettleAgrees(LuaRun(v, front), Run(w, front), a, billed);
      case SetBudgetCall(t, quota, dollars) => SetBudgetAgrees(LuaRun(v, front), Run(w, front), t, quota, dollars);
    }
  }

  /** In particular from equal limits and equal counters, none of them negative. */
  lemma EqualCountersStayEqual(s: Store, b: Books, cs: seq<Call>) returns (v: LuaWorld, w: World)
    requires AllDated(cs) && MayOpen(b) && SameLimits(s, b) && SameCounters(s, b) && SameMarkers(s, b)
    ensures v.store == s && w.books == b && v.lines == w.lines && forall i :: 0 <= i < |w.lines| ==> w.lines[i].Direct?
    ensures Refines(LuaRun(v, cs), Run(w, cs)) && Conserved(Run(w, cs))
  {
    w := OpenWorld(b);
    v := LuaWorld(s, w.lines);
    ScriptsRefineLocks(v, w, cs);
    RunConserves(w, cs);
  }
}
