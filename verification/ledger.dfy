/** The per-tenant ledger: a bounded list that drops its oldest record. */
module Ledger {
  import opened Wrappers
  import opened Attribution

  datatype FinOpsRecord = FinOpsRecord(
    tenant: string,
    month: string,  // of its timestamp, as YYYY-MM
    optimizedTokens: int,
    outputTokens: int,
    reportedTotal: Option<int>,
    baselineCost: int,
    estimatedCost: int,
    effectiveCost: int,
    totalSavings: int,
    attribution: Savings,
    isCacheHit: bool)

  type Records = map<string, seq<FinOpsRecord>>

  function Of(history: seq<FinOpsRecord>, tenant: string): seq<FinOpsRecord> {
    if history == [] then []
    else
      var last := history[|history| - 1];
      Of(history[..|history| - 1], tenant) + (if last.tenant == tenant then [last] else [])
  }

  /** The last `n` elements. */
  function LastN<T>(s: seq<T>, n: int): (r: seq<T>)
    ensures |r| == Min(|s|, Max(0, n))
    ensures forall i :: 0 <= i < |r| ==> r[i] == s[|s| - |r| + i]
  {
    if |s| <= n then s else s[|s| - Max(0, n)..]
  }

  lemma LastNMore<T>(s: seq<T>, x: T, n: int)
    ensures LastN(s + [x], n) == if |LastN(s, n)| + 1 > n then (LastN(s, n) + [x])[1..] else LastN(s, n) + [x]
  {
  }

  lemma OfMore(history: seq<FinOpsRecord>, r: FinOpsRecord, t: string)
    ensures Of(history + [r], t) == if r.tenant == t then Of(history, t) + [r] else Of(history, t)
  {
    assert (history + [r])[..|history|] == history;
  }

  /** The tenant's list is the newest part of that tenant's own history, and of nobody else's. */
  predicate Keeps(records: Records, history: seq<FinOpsRecord>, n: int, t: string) {
    Lookup(records, t).GetOr([]) == LastN(Of(history, t), n)
  }

  lemma RecordKeeps(records: Records, history: seq<FinOpsRecord>, n: int, r: FinOpsRecord, list: seq<FinOpsRecord>,
          t: string)
    requires Keeps(records, history, n, t)
    requires var longer := Lookup(records, r.tenant).GetOr([]) + [r];
             list == if |longer| > n then longer[1..] else longer
    ensures Keeps(records[r.tenant := list], history + [r], n, t)
  {
    OfMore(history, r, t);
    LastNMore(Of(history, t), r, n);
  }

  function Reversed<T>(list: seq<T>): (r: seq<T>)
    ensures |r| == |list| && forall i :: 0 <= i < |r| ==> r[i] == list[|list| - 1 - i]
  {
    seq(|list|, i requires 0 <= i < |list| => list[|list| - 1 - i])
  }

  /** The newest-first page `[offset, offset + limit)` of a list. */
  function Page<T>(list: seq<T>, limit: int, offset: int): seq<T> {
    Slice(Reversed(list), offset, offset + limit)
  }

  /** A newest-first page of a list: entry `i` is number `offset + i`, counted back from the last. */
  ghost predicate IsPage<T>(page: seq<T>, list: seq<T>, limit: int, offset: int) {
    limit >= 0 && offset >= 0 ==>
      && |page| == Max(0, Min(|list|, offset + limit) - offset)
      && forall i :: 0 <= i < |page| ==> page[i] == list[|list| - 1 - offset - i]
  }

  lemma PageEntries<T>(list: seq<T>, limit: int, offset: int)
    ensures IsPage(Page(list, limit, offset), list, limit, offset)
  {
    if limit >= 0 && offset >= 0 {
      var newest := Reversed(list);
      var a, b := Bound(offset, |newest|), Bound(offset + limit, |newest|);
      assert Page(list, limit, offset) == newest[a..b];
    }
  }

  /**
    Without a month, a page of the bounded list is a page of everything the tenant ever recorded, as far as it is
    kept.
   */
  lemma PageOfLastN<T>(own: seq<T>, n: int, limit: int, offset: int)
    requires limit >= 0 && offset >= 0
    ensures var page := Page(LastN(own, n), limit, offset);
            && |page| == Max(0, Min(Min(|own|, Max(0, n)), offset + limit) - offset)
            && forall i :: 0 <= i < |page| ==> page[i] == own[|own| - 1 - offset - i]
  {
    PageEntries(LastN(own, n), limit, offset);
  }

  // ----- one month -----

  predicate Wanted(r: FinOpsRecord, period: Option<string>) {
    period.GetOr("") == "" || r.month == period.value
  }

  /** The records of a month, or all of them, in their order. */
  function InMonth(list: seq<FinOpsRecord>, period: Option<string>): seq<FinOpsRecord> {
    if list == [] then []
    else
      var last := list[|list| - 1];
      InMonth(list[..|list| - 1], period) + (if Wanted(last, period) then [last] else [])
  }

  lemma InMonthMore(list: seq<FinOpsRecord>, r: FinOpsRecord, period: Option<string>)
    ensures InMonth(list + [r], period) == InMonth(list, period) + (if Wanted(r, period) then [r] else [])
  {
    assert (list + [r])[..|list|] == list;
  }

  lemma {:induction false} InMonthIsAll(list: seq<FinOpsRecord>, period: Option<string>)
    requires period.GetOr("") == ""
    ensures InMonth(list, period) == list
  {
    if list != [] {
      InMonthIsAll(list[..|list| - 1], period);
    }
  }

  /** Exactly the wanted records are left. */
  lemma {:induction false} InMonthElements(list: seq<FinOpsRecord>, period: Option<string>, r: FinOpsRecord)
    ensures r in InMonth(list, period) <==>
              r in list && (period.None? || period == Some("") || period == Some(r.month))
  {
    if list != [] {
      InMonthElements(list[..|list| - 1], period, r);
      assert list == list[..|list| - 1] + [list[|list| - 1]];
    }
  }

  // ----- whose records they are -----

  predicate Owned(list: seq<FinOpsRecord>, tenant: string) {
    forall i :: 0 <= i < |list| ==> list[i].tenant == tenant
  }

  lemma {:induction false} OfIsOwn(history: seq<FinOpsRecord>, tenant: string)
    ensures Owned(Of(history, tenant), tenant)
  {
    if history != [] {
      OfIsOwn(history[..|history| - 1], tenant);
    }
  }

  lemma InMonthIsOwn(list: seq<FinOpsRecord>, period: Option<string>, tenant: string)
    requires Owned(list, tenant)
    ensures Owned(InMonth(list, period), tenant)
  {
    forall i | 0 <= i < |InMonth(list, period)|
      ensures InMonth(list, period)[i].tenant == tenant
    {
      InMonthElements(list, period, InMonth(list, period)[i]);
    }
  }

  lemma PageIsOwn(list: seq<FinOpsRecord>, limit: int, offset: int, tenant: string)
    requires Owned(list, tenant)
    ensures Owned(Page(list, limit, offset), tenant)
  {
    var newest := Reversed(list);
    var a, b := Bound(offset, |newest|), Bound(offset + limit, |newest|);
    assert Owned(newest, tenant);
    assert a <= b ==> Page(list, limit, offset) == newest[a..b];
  }

  lemma PageIsWanted(list: seq<FinOpsRecord>, period: Option<string>, limit: int, offset: int)
    ensures forall r :: r in Page(InMonth(list, period), limit, offset) ==> Wanted(r, period)
  {
    var kept := InMonth(list, period);
    var newest := Reversed(kept);
    var a, b := Bound(offset, |newest|), Bound(offset + limit, |newest|);
    assert a <= b ==> Page(kept, limit, offset) == newest[a..b];
    forall r | r in Page(kept, limit, offset)
      ensures Wanted(r, period)
    {
      var i :| 0 <= i < b - a && newest[a..b][i] == r;
      assert r == kept[|kept| - 1 - (a + i)];
      InMonthElements(list, period, r);
    }
  }

  lemma PageOfMonth(list: seq<FinOpsRecord>, period: Option<string>, limit: int, offset: int, tenant: string)
    requires Owned(list, tenant)
    ensures Owned(Page(InMonth(list, period), limit, offset), tenant)
    ensures forall r :: r in Page(InMonth(list, period), limit, offset) ==> Wanted(r, period)
  {
    InMonthIsOwn(list, period, tenant);
    PageIsOwn(InMonth(list, period), limit, offset, tenant);
    PageIsWanted(list, period, limit, offset);
  }

  class FinOpsLedger {
    const maxRecords: int
    var records: Records
    ghost var history: seq<FinOpsRecord>  // everything that was ever recorded

    ghost predicate Valid()
      reads this
    {
      forall t: string :: Keeps(records, history, maxRecords, t)
    }

    constructor (maxRecords: int)
      ensures Valid() && history == [] && this.maxRecords == maxRecords
    {
      this.maxRecords := maxRecords;
      records := map[];
      history := [];
    }

    method Record(r: FinOpsRecord)
      requires Valid()
      modifies this
      ensures Valid() && history == old(history) + [r]
    {
      var list := (if r.tenant in records then records[r.tenant] else []) + [r];
      if |list| > maxRecords {
        list := list[1..];
      }
      var next := records[r.tenant := list];
      ghost var grown := history + [r];
      forall t: string
        ensures Keeps(next, grown, maxRecords, t)
      {
        RecordKeeps(records, history, maxRecords, r, list, t);
      }
      records := next;
      history := grown;
    }

    /** Newest first, of one month or of all: a page of what is kept of the tenant's own history. */
    method GetRecords(tenant: string, period: Option<string>, limit: int, offset: int) returns (page: seq<FinOpsRecord>)
      requires Valid()
      ensures IsPage(page, InMonth(LastN(Of(history, tenant), maxRecords), period), limit, offset)
      ensures period.GetOr("") == "" ==> IsPage(page, LastN(Of(history, tenant), maxRecords), limit, offset)
      ensures Owned(page, tenant) && forall r :: r in page ==> Wanted(r, period)
    {
      var all := if tenant in records then records[tenant] else [];
      assert Keeps(records, history, maxRecords, tenant);
      var filtered := all;
      if period.GetOr("") != "" {
        filtered := FilterMonth(all, period.value);
      } else {
        InMonthIsAll(all, period);
      }
      page := Page(filtered, limit, offset);
      PageEntries(filtered, limit, offset);
      OfIsOwn(history, tenant);
      PageOfMonth(all, period, limit, offset, tenant);
    }

    /** The comprehension over a month. */
    static method FilterMonth(all: seq<FinOpsRecord>, month: string) returns (filtered: seq<FinOpsRecord>)
      requires month != ""
      ensures filtered == InMonth(all, Some(month))
    {
      filtered := [];
      for i := 0 to |all|
        invariant filtered == InMonth(all[..i], Some(month))
      {
        InMonthMore(all[..i], all[i], Some(month));
        assert all[..i + 1] == all[..i] + [all[i]];
        if all[i].month == month {
          filtered := filtered + [all[i]];
        }
      }
      assert all[..|all|] == all;
    }
  }
}
