/**
  The store itself: get, compare-and-swap and the cursor scan over the sorted names. The order of
  names is a parameter; only that it is a strict total order matters.
 */
module ByokStorage {
  import opened Wrappers
  import opened Byok
  import opened ByokProtocol

  type Order = (SlotName, SlotName) -> bool

  ghost predicate StrictTotal(before: Order) {
    && (forall a :: !before(a, a))
    && (forall a, b :: a != b ==> before(a, b) || before(b, a))
    && (forall a, b, c :: before(a, b) && before(b, c) ==> before(a, c))
  }

  // ----- the place of a name among others -----

  function Smaller(names: set<SlotName>, before: Order, k: SlotName): set<SlotName> {
    set x | x in names && before(x, k)
  }

  /** The index `k` has, or would have, in the sorted list of `names`. */
  function Rank(names: set<SlotName>, before: Order, k: SlotName): nat {
    |Smaller(names, before, k)|
  }

  lemma SubsetSize<T>(a: set<T>, b: set<T>)
    requires a <= b
    ensures |a| <= |b|
    ensures |a| == |b| ==> a == b
  {
    var rest := b - a;
    assert b == a + rest;
    assert |b| == |a| + |rest|;
  }

  /** More names only move a name further back. */
  lemma RankGrows(names: set<SlotName>, more: set<SlotName>, before: Order, k: SlotName)
    requires names <= more
    ensures Rank(names, before, k) <= Rank(more, before, k)
  {
    SubsetSize(Smaller(names, before, k), Smaller(more, before, k));
  }

  lemma RankIsOrder(names: set<SlotName>, before: Order, a: SlotName, b: SlotName)
    requires StrictTotal(before) && a in names && before(a, b)
    ensures Rank(names, before, a) < Rank(names, before, b)
  {
    SubsetSize(Smaller(names, before, a), Smaller(names, before, b));
    assert a in Smaller(names, before, b) && a !in Smaller(names, before, a);
  }

  lemma RankInRange(names: set<SlotName>, before: Order, k: SlotName)
    requires StrictTotal(before) && k in names
    ensures Rank(names, before, k) < |names|
  {
    SubsetSize(Smaller(names, before, k), names - {k});
  }

  // ----- sorting -----

  predicate Sorted(names: seq<SlotName>, before: Order) {
    forall i, j :: 0 <= i < j < |names| ==> before(names[i], names[j])
  }

  function Insert(names: seq<SlotName>, before: Order, k: SlotName): (r: seq<SlotName>)
    ensures multiset(r) == multiset(names) + multiset{k}
  {
    if names == [] then [k]
    else if before(k, names[0]) then [k] + names
    else
      assert names == [names[0]] + names[1..];
      [names[0]] + Insert(names[1..], before, k)
  }

  lemma InsertElements(names: seq<SlotName>, before: Order, k: SlotName, x: SlotName)
    ensures x in Insert(names, before, k) <==> x in names || x == k
  {
    assert x in Insert(names, before, k) <==> x in multiset(Insert(names, before, k));
  }

  lemma PrependSorts(first: SlotName, rest: seq<SlotName>, before: Order)
    requires Sorted(rest, before) && forall x :: x in rest ==> before(first, x)
    ensures Sorted([first] + rest, before)
  {
    forall j | 0 <= j < |rest|
      ensures before(first, rest[j])
    {
      assert rest[j] in rest;
    }
  }

  lemma {:induction false} InsertSorts(names: seq<SlotName>, before: Order, k: SlotName)
    requires StrictTotal(before) && Sorted(names, before) && k !in names
    ensures Sorted(Insert(names, before, k), before)
  {
    if names == [] {
    } else if before(k, names[0]) {
      forall x | x in names
        ensures before(k, x)
      {
        assert x == names[0] || before(names[0], x);
      }
      PrependSorts(k, names, before);
    } else {
      InsertSorts(names[1..], before, k);
      forall x | x in Insert(names[1..], before, k)
        ensures before(names[0], x)
      {
        InsertElements(names[1..], before, k, x);
        if x in names[1..] {
          var j :| 0 <= j < |names[1..]| && names[1..][j] == x;
          assert names[j + 1] == x;
        }
      }
      PrependSorts(names[0], Insert(names[1..], before, k), before);
    }
  }

  ghost predicate Lists(r: seq<SlotName>, names: set<SlotName>) {
    forall x :: x in r <==> x in names
  }

  lemma LaterIsNotBefore(r: seq<SlotName>, before: Order, i: nat, j: nat)
    requires StrictTotal(before) && Sorted(r, before) && i <= j < |r|
    ensures !before(r[j], r[i])
  {
    assert i < j ==> before(r[i], r[j]);
  }

  /** Among sorted names the smaller ones than one are those before it. */
  lemma SmallerIsEarlier(r: seq<SlotName>, names: set<SlotName>, before: Order, i: nat, x: SlotName)
    requires StrictTotal(before) && Sorted(r, before) && i < |r| && Lists(r, names)
    ensures x in Smaller(names, before, r[i]) <==> x in r[..i]
  {
    forall j | i <= j < |r|
      ensures !before(r[j], r[i])
    {
      LaterIsNotBefore(r, before, i, j);
    }
    if x in Smaller(names, before, r[i]) {
      var j :| 0 <= j < |r| && r[j] == x;
      assert r[..i][j] == x;
    }
  }

  lemma SmallerAreEarlier(r: seq<SlotName>, names: set<SlotName>, before: Order, i: nat)
    requires StrictTotal(before) && Sorted(r, before) && i < |r| && Lists(r, names)
    ensures forall x :: x in Smaller(names, before, r[i]) <==> x in r[..i]
  {
    forall x
      ensures x in Smaller(names, before, r[i]) <==> x in r[..i]
    {
      SmallerIsEarlier(r, names, before, i, x);
    }
  }

  /** A name's index in the sorted list is its rank. */
  lemma {:induction false} IndexIsRank(r: seq<SlotName>, names: set<SlotName>, before: Order, i: nat)
    requires StrictTotal(before) && Sorted(r, before) && i < |r| && Lists(r, names)
    ensures Rank(names, before, r[i]) == i
    decreases i
  {
    SmallerAreEarlier(r, names, before, i);
    if i == 0 {
      assert Smaller(names, before, r[0]) == {};
    } else {
      SmallerAreEarlier(r, names, before, i - 1);
      IndexIsRank(r, names, before, i - 1);
      assert r[..i] == r[..i - 1] + [r[i - 1]];
      assert Smaller(names, before, r[i]) == Smaller(names, before, r[i - 1]) + {r[i - 1]};
    }
  }

  /** The names a scan hands out: those whose rank lies in `[from, to)`. */
  ghost predicate IsPage(page: seq<SlotName>, names: set<SlotName>, before: Order, from: nat, to: nat) {
    forall k :: k in page <==> k in names && from <= Rank(names, before, k) < to
  }

  lemma PageEntryHasRank(r: seq<SlotName>, names: set<SlotName>, before: Order, a: nat, b: nat, k: SlotName)
    requires StrictTotal(before) && a <= b <= |r| && Sorted(r, before) && Lists(r, names)
    ensures k in r[a..b] <==> k in names && a <= Rank(names, before, k) < b
  {
    if k in names {
      var i :| 0 <= i < |r| && r[i] == k;
      IndexIsRank(r, names, before, i);
      assert a <= i < b ==> r[a..b][i - a] == k;
    }
    if k in r[a..b] {
      var j :| 0 <= j < b - a && r[a..b][j] == k;
      assert r[a + j] == k;
      IndexIsRank(r, names, before, a + j);
    }
  }

  lemma PageOfSorted(r: seq<SlotName>, names: set<SlotName>, before: Order, from: nat, to: nat)
    requires StrictTotal(before) && from <= to && Sorted(r, before) && Lists(r, names) && |r| == |names|
    ensures IsPage(Slice(r, from, to), names, before, from, to)
  {
    var a, b := Min(from, |r|), Min(to, |r|);
    assert Slice(r, from, to) == r[a..b];
    forall k
      ensures k in r[a..b] <==> k in names && from <= Rank(names, before, k) < to
    {
      PageEntryHasRank(r, names, before, a, b, k);
      if k in names {
        RankInRange(names, before, k);
      }
    }
  }

  // ----- the store -----

  class MemoryStore {
    var records: Records
    const before: Order
    ghost var commits: nat  // successful writes of the caller under study; writes by others are not counted

    constructor (before: Order)
      ensures records == map[] && this.before == before
    {
      records := map[];
      this.before := before;
      commits := 0;
    }

    method Get(key: SlotName) returns (raw: Option<Raw>)
      ensures raw == Lookup(records, key)
    {
      raw := if key in records then Some(records[key]) else None;
    }

    /** One atomic step: write `value` if the slot still holds what was read. */
    method Cas(key: SlotName, expected: Option<Raw>, value: Option<Raw>) returns (done: bool)
      modifies this
      ensures done <==> Lookup(old(records), key) == expected
      ensures records == if done then PutRaw(old(records), key, value) else old(records)
      ensures done ==> Lookup(records, key) == value
      ensures commits == old(commits) + (if done then 1 else 0)
    {
      var current := Get(key);
      if current != expected {
        return false;
      }
      commits := commits + 1;
      if value.None? {
        records := records - {key};
      } else {
        records := records[key := value.value];
      }
      return true;
    }

    /** `sorted(self.records)`. */
    method SortedNames() returns (names: seq<SlotName>)
      requires StrictTotal(before)
      ensures Sorted(names, before) && |names| == |records|
      ensures forall x :: x in names <==> x in records
    {
      names := [];
      var left := records.Keys;
      while left != {}
        invariant left <= records.Keys && Sorted(names, before) && |names| == |records.Keys| - |left|
        invariant forall x :: x in names <==> x in records.Keys - left
      {
        var k :| k in left;
        InsertSorts(names, before, k);
        forall x {
          InsertElements(names, before, k, x);
        }
        assert |multiset(Insert(names, before, k))| == |multiset(names)| + 1;
        names := Insert(names, before, k);
        left := left - {k};
      }
      assert |records| == |records.Keys|;
    }

    /** The names with index in `[cursor, cursor + count)`; cursor 0 again once the list is exhausted. */
    method Scan(cursor: int, count: nat) returns (next: int, page: seq<SlotName>)
      requires StrictTotal(before)
      ensures next == if cursor + count < |records| then cursor + count else 0
      ensures Sorted(page, before) && |page| <= count && forall k :: k in page ==> k in records
      ensures cursor >= 0 ==> IsPage(page, records.Keys, before, cursor, cursor + count)
    {
      var names := SortedNames();
      var end := cursor + count;
      next := if end < |names| then end else 0;
      page := Slice(names, cursor, end);
      if cursor >= 0 {
        PageOfSorted(names, records.Keys, before, cursor, end);
      }
    }
  }

  // ----- the same step as a server-side script -----

  /** `_CAS`: what to expect and what to write travel as a flag and a text each, the text empty when the flag is off. */
  function RedisCas(records: Records, key: SlotName, hasExpected: bool, expected: Raw, hasValue: bool, value: Raw)
    : (Records, bool)
  {
    var prior := Lookup(records, key);
    if (!hasExpected && prior.Some?) || (hasExpected && prior != Some(expected)) then (records, false)
    else if !hasValue then (records - {key}, true)
    else (records[key := value], true)
  }

  /** Whatever text stands for an absent one, the script does exactly what the locked section does. */
  lemma RedisCasIsCas(records: Records, key: SlotName, expected: Option<Raw>, value: Option<Raw>, filler: Raw)
    ensures RedisCas(records, key, expected.Some?, expected.GetOr(filler), value.Some?, value.GetOr(filler))
         == if Lookup(records, key) == expected then (PutRaw(records, key, value), true) else (records, false)
  {
  }
}
