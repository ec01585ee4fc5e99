/**
  Serial runs in an order other than the commit order. With tenants named after each other's digests the
  commit order may not be serial; some order that keeps every slot's own operations in theirs always is.
 */
module ByokSerial {
  import opened Wrappers
  import opened Byok
  import opened ByokProtocol

  /** What an operation writes, as a function of its log entry. */
  type Writes = Entry -> Option<Raw>

  function Name(e: Entry): SlotName {
    Target(e.op)
  }

  /** The entries on one slot. */
  function Own(log: seq<Entry>, name: SlotName): seq<Entry> {
    if log == [] then []
    else
      var front := Own(log[..|log| - 1], name);
      if Name(log[|log| - 1]) == name then front + [log[|log| - 1]] else front
  }

  /** The entries on all other slots. */
  function Others(log: seq<Entry>, name: SlotName): seq<Entry> {
    if log == [] then []
    else
      var front := Others(log[..|log| - 1], name);
      if Name(log[|log| - 1]) == name then front else front + [log[|log| - 1]]
  }

  /** What the entries leave in a slot. */
  function After(val: Writes, records: Records, log: seq<Entry>, name: SlotName): Option<Raw> {
    if log == [] then Lookup(records, name)
    else if Name(log[|log| - 1]) == name then val(log[|log| - 1])
    else After(val, records, log[..|log| - 1], name)
  }

  /** Every entry replaces what the entries before it left in its slot. */
  predicate Chained(val: Writes, records: Records, log: seq<Entry>) {
    log != [] ==>
      var front, last := log[..|log| - 1], log[|log| - 1];
      Chained(val, records, front) && last.before == After(val, records, front, Name(last))
  }

  /** The old name of a slot's tenant. */
  function OldName(name: SlotName): SlotName {
    match name
    case Slot(t, p) => LegacyKey(t, p)
    case _ => name
  }

  /** At some point among the slot's own entries it is empty. */
  ghost predicate Empties(val: Writes, records: Records, own: seq<Entry>, name: SlotName) {
    exists n :: 0 <= n <= |own| && After(val, records, own[..n], name).None?
  }

  /** The entry filled an empty slot; so it found the old name unused at some point. */
  ghost predicate SawOldNameFree(val: Writes, records: Records, log: seq<Entry>, e: Entry) {
    e.before.None? ==> Name(e).Slot? && Empties(val, records, Own(log, OldName(Name(e))), OldName(Name(e)))
  }

  ghost predicate AllSawOldNameFree(val: Writes, records: Records, log: seq<Entry>) {
    forall i :: 0 <= i < |log| ==> SawOldNameFree(val, records, log, log[i])
  }

  /** Every entry that fills an empty slot finds the old name unused at its own turn. */
  predicate Placed(val: Writes, records: Records, order: seq<Entry>) {
    order != [] ==>
      var front, last := order[..|order| - 1], order[|order| - 1];
      && Placed(val, records, front)
      && (last.before.None? ==> After(val, records, front, OldName(Name(last))).None?)
  }

  /** The same entries, those on any one slot in the same order. */
  ghost predicate Reordered(log: seq<Entry>, order: seq<Entry>) {
    multiset(order) == multiset(log) && forall name: SlotName :: Own(order, name) == Own(log, name)
  }

  // ----- entries of one slot -----

  lemma {:induction false} OwnConcat(a: seq<Entry>, b: seq<Entry>, name: SlotName)
    ensures Own(a + b, name) == Own(a, name) + Own(b, name)
    decreases |b|
  {
    if b == [] {
      assert a + b == a;
    } else {
      var front := b[..|b| - 1];
      assert (a + b)[..|a + b| - 1] == a + front;
      OwnConcat(a, front, name);
    }
  }

  lemma {:induction false} OwnNames(log: seq<Entry>, name: SlotName)
    ensures forall i :: 0 <= i < |Own(log, name)| ==> Name(Own(log, name)[i]) == name && Own(log, name)[i] in log
  {
    if log != [] {
      OwnNames(log[..|log| - 1], name);
    }
  }

  lemma {:induction false} OthersNames(log: seq<Entry>, name: SlotName)
    ensures forall i :: 0 <= i < |Others(log, name)| ==>
                Name(Others(log, name)[i]) != name && Others(log, name)[i] in log
  {
    if log != [] {
      OthersNames(log[..|log| - 1], name);
    }
  }

  /** A list of entries on one slot is its own list, and empty for any other slot. */
  lemma {:induction false} OwnOfOne(s: seq<Entry>, name: SlotName, other: SlotName)
    requires forall i :: 0 <= i < |s| ==> Name(s[i]) == name
    ensures Own(s, other) == if other == name then s else []
  {
    if s != [] {
      OwnOfOne(s[..|s| - 1], name, other);
    }
  }

  lemma {:induction false} OwnOfOthers(log: seq<Entry>, name: SlotName, other: SlotName)
    ensures Own(Others(log, name), other) == if other == name then [] else Own(log, other)
  {
    if log != [] {
      var front, last := log[..|log| - 1], log[|log| - 1];
      OwnOfOthers(front, name, other);
      if Name(last) != name {
        OwnConcat(Others(front, name), [last], other);
        OwnOfOne([last], Name(last), other);
      }
    }
  }

  lemma {:induction false} OwnAndOthers(log: seq<Entry>, name: SlotName)
    ensures multiset(log) == multiset(Own(log, name)) + multiset(Others(log, name))
  {
    if log != [] {
      var front, last := log[..|log| - 1], log[|log| - 1];
      OwnAndOthers(front, name);
      assert log == front + [last];
    }
  }

  /** Only a slot's own entries matter for what is left in it. */
  lemma {:induction false} AfterOwn(val: Writes, records: Records, log: seq<Entry>, name: SlotName)
    ensures After(val, records, Own(log, name), name) == After(val, records, log, name)
  {
    if log != [] {
      var front, last := log[..|log| - 1], log[|log| - 1];
      AfterOwn(val, records, front, name);
      if Name(last) == name {
        assert (Own(front, name) + [last])[|Own(front, name)|] == last;
      }
    }
  }

  lemma SameOwnSameAfter(val: Writes, records: Records, a: seq<Entry>, b: seq<Entry>, name: SlotName)
    requires Own(a, name) == Own(b, name)
    ensures After(val, records, a, name) == After(val, records, b, name)
  {
    AfterOwn(val, records, a, name);
    AfterOwn(val, records, b, name);
  }

  lemma {:induction false} ChainedPrefix(val: Writes, records: Records, s: seq<Entry>, t: seq<Entry>)
    requires Chained(val, records, s + t)
    ensures Chained(val, records, s)
    decreases |t|
  {
    if t == [] {
      assert s + t == s;
    } else {
      assert (s + t)[..|s + t| - 1] == s + t[..|t| - 1];
      ChainedPrefix(val, records, s, t[..|t| - 1]);
    }
  }

  lemma {:induction false} ChainedOwn(val: Writes, records: Records, log: seq<Entry>, name: SlotName)
    requires Chained(val, records, log)
    ensures Chained(val, records, Own(log, name))
  {
    if log != [] {
      var front, last := log[..|log| - 1], log[|log| - 1];
      ChainedOwn(val, records, front, name);
      if Name(last) == name {
        var own := Own(front, name);
        AfterOwn(val, records, front, name);
        assert (own + [last])[..|own|] == own;
      }
    }
  }

  /** Whether every entry replaces what it found depends on the slots one by one. */
  lemma {:induction false} ChainedBySlot(val: Writes, records: Records, order: seq<Entry>)
    requires forall name: SlotName :: Chained(val, records, Own(order, name))
    ensures Chained(val, records, order)
  {
    if order != [] {
      var front, last := order[..|order| - 1], order[|order| - 1];
      forall name: SlotName
        ensures Chained(val, records, Own(front, name))
      {
        assert Chained(val, records, Own(order, name));
        if Name(last) == name {
          ChainedPrefix(val, records, Own(front, name), [last]);
        }
      }
      ChainedBySlot(val, records, front);
      assert Chained(val, records, Own(order, Name(last)));
      LastIsChained(val, records, front, last);
    }
  }

  lemma LastIsChained(val: Writes, records: Records, front: seq<Entry>, last: Entry)
    requires Chained(val, records, Own(front, Name(last)) + [last])
    ensures last.before == After(val, records, front, Name(last))
  {
    var own := Own(front, Name(last));
    assert (own + [last])[..|own|] == own;
    AfterOwn(val, records, front, Name(last));
  }

  // ----- putting a slot's entries into a gap -----

  /** The deeper a tenant's name is nested in digests, the later it is placed. */
  function Nesting(t: TenantId): nat {
    match t
    case Named(_) => 0
    case DigestOf(u) => 1 + Nesting(u)
  }

  function Depth(name: SlotName): nat {
    if name.Slot? then 1 + Nesting(name.tenant) else 0
  }

  lemma OldNameIsShallower(name: SlotName)
    requires name.Slot?
    ensures Depth(OldName(name)) < Depth(name)
  {
  }

  lemma {:induction false} DeepestSlot(log: seq<Entry>) returns (deepest: SlotName)
    requires log != []
    ensures exists i :: 0 <= i < |log| && Name(log[i]) == deepest
    ensures forall i :: 0 <= i < |log| ==> Depth(Name(log[i])) <= Depth(deepest)
  {
    var front, last := log[..|log| - 1], log[|log| - 1];
    deepest := Name(last);
    if front != [] {
      var inner := DeepestSlot(front);
      if Depth(inner) > Depth(deepest) {
        deepest := inner;
      }
    }
  }

  lemma {:induction false} AfterConcat(val: Writes, records: Records, a: seq<Entry>, b: seq<Entry>, name: SlotName)
    requires forall i :: 0 <= i < |b| ==> Name(b[i]) != name
    ensures After(val, records, a + b, name) == After(val, records, a, name)
    decreases |b|
  {
    if b == [] {
      assert a + b == a;
    } else {
      assert (a + b)[..|a + b| - 1] == a + b[..|b| - 1];
      AfterConcat(val, records, a, b[..|b| - 1], name);
    }
  }

  /** A prefix of a slot's entries is what a prefix of the whole order holds of them. */
  lemma {:induction false} GapInOrder(order: seq<Entry>, name: SlotName, n: nat) returns (g: nat)
    requires n <= |Own(order, name)|
    ensures g <= |order| && Own(order[..g], name) == Own(order, name)[..n]
  {
    if order == [] || n == |Own(order, name)| {
      g := |order|;
      assert order[..g] == order;
    } else {
      var front := order[..|order| - 1];
      g := GapInOrder(front, name, n);
      assert front[..g] == order[..g];
    }
  }

  /** Entries of one slot, placed where its old name is unused, stay placed. */
  lemma {:induction false} PlaceOne(val: Writes, records: Records, order: seq<Entry>, mine: seq<Entry>, name: SlotName)
    requires Placed(val, records, order) && forall i :: 0 <= i < |mine| ==> Name(mine[i]) == name
    requires name.Slot?
    requires (exists i :: 0 <= i < |mine| && mine[i].before.None?) ==> After(val, records, order, OldName(name)).None?
    ensures Placed(val, records, order + mine)
    decreases |mine|
  {
    if mine == [] {
      assert order + mine == order;
    } else {
      var front := mine[..|mine| - 1];
      assert (order + mine)[..|order + mine| - 1] == order + front;
      PlaceOne(val, records, order, front, name);
      OldNameIsShallower(name);
      AfterConcat(val, records, order, front, OldName(name));
    }
  }

  /** Entries that look at other slots do not notice what was put before them. */
  lemma {:induction false} PlaceAround(val: Writes, records: Records, a: seq<Entry>, mine: seq<Entry>, b: seq<Entry>,
                                       name: SlotName)
    requires Placed(val, records, a + b) && Placed(val, records, a + mine)
    requires forall i :: 0 <= i < |mine| ==> Name(mine[i]) == name
    requires forall i :: 0 <= i < |b| && b[i].before.None? ==> OldName(Name(b[i])) != name
    ensures Placed(val, records, a + mine + b)
    decreases |b|
  {
    if b == [] {
      assert a + mine + b == a + mine;
    } else {
      var front, last := b[..|b| - 1], b[|b| - 1];
      assert (a + b)[..|a + b| - 1] == a + front;
      assert (a + mine + b)[..|a + mine + b| - 1] == a + mine + front;
      PlaceAround(val, records, a, mine, front, name);
      if last.before.None? {
        Skips(a, mine, front, name, OldName(Name(last)));
        SameOwnSameAfter(val, records, a + mine + front, a + front, OldName(Name(last)));
      }
    }
  }

  /** The entries put in between belong to one slot. */
  lemma Skips(a: seq<Entry>, mine: seq<Entry>, b: seq<Entry>, name: SlotName, other: SlotName)
    requires forall i :: 0 <= i < |mine| ==> Name(mine[i]) == name
    ensures Own(a + mine + b, other) == Own(a, other) + (if other == name then mine else []) + Own(b, other)
    ensures other != name ==> Own(a + mine + b, other) == Own(a + b, other)
  {
    OwnConcat(a + mine, b, other);
    OwnConcat(a, mine, other);
    OwnConcat(a, b, other);
    OwnOfOne(mine, name, other);
  }

  /** The place for a slot's entries among those of the shallower ones. */
  lemma GapFor(val: Writes, records: Records, log: seq<Entry>, order: seq<Entry>, name: SlotName) returns (g: nat)
    requires name.Slot? && AllSawOldNameFree(val, records, log)
    requires Own(order, OldName(name)) == Own(log, OldName(name))
    ensures g <= |order|
    ensures (exists i :: 0 <= i < |Own(log, name)| && Own(log, name)[i].before.None?) ==>
              After(val, records, order[..g], OldName(name)).None?
  {
    g := 0;
    if i :| 0 <= i < |Own(log, name)| && Own(log, name)[i].before.None? {
      OwnNames(log, name);
      var e := Own(log, name)[i];
      var j :| 0 <= j < |log| && log[j] == e;
      assert SawOldNameFree(val, records, log, log[j]);
      var own := Own(log, OldName(name));
      var n :| 0 <= n <= |own| && After(val, records, own[..n], OldName(name)).None?;
      g := GapInOrder(order, OldName(name), n);
      AfterOwn(val, records, order[..g], OldName(name));
    }
  }

  lemma OthersSawOldNameFree(val: Writes, records: Records, log: seq<Entry>, name: SlotName)
    requires AllSawOldNameFree(val, records, log)
    requires forall i :: 0 <= i < |log| ==> Depth(Name(log[i])) <= Depth(name)
    ensures AllSawOldNameFree(val, records, Others(log, name))
  {
    var rest := Others(log, name);
    OthersNames(log, name);
    forall i | 0 <= i < |rest|
      ensures SawOldNameFree(val, records, rest, rest[i])
    {
      var j :| 0 <= j < |log| && log[j] == rest[i];
      assert SawOldNameFree(val, records, log, log[j]);
      if rest[i].before.None? {
        OldNameIsShallower(Name(rest[i]));
        OwnOfOthers(log, name, OldName(Name(rest[i])));
      }
    }
  }

  lemma InsertedOwn(log: seq<Entry>, a: seq<Entry>, b: seq<Entry>, name: SlotName, other: SlotName)
    requires Own(a + b, other) == Own(Others(log, name), other)
    ensures Own(a + Own(log, name) + b, other) == Own(log, other)
  {
    OwnNames(log, name);
    Skips(a, Own(log, name), b, name, other);
    OwnOfOthers(log, name, other);
    if other == name {
      OwnConcat(a, b, other);
      NothingAround(Own(a, other), Own(log, name), Own(b, other));
    }
  }

  lemma NothingAround(a: seq<Entry>, mine: seq<Entry>, b: seq<Entry>)
    requires a + b == []
    ensures a + mine + b == mine
  {
    assert |a| + |b| == |a + b| == 0;
    assert a == [] && b == [];
  }

  lemma SameElements(a: seq<Entry>, mine: seq<Entry>, b: seq<Entry>)
    ensures multiset(a + mine + b) == multiset(mine) + multiset(a + b)
  {
  }

  lemma InsertedIsReordered(log: seq<Entry>, a: seq<Entry>, b: seq<Entry>, name: SlotName)
    requires Reordered(Others(log, name), a + b)
    ensures Reordered(log, a + Own(log, name) + b)
  {
    OwnAndOthers(log, name);
    SameElements(a, Own(log, name), b);
    forall other: SlotName
      ensures Own(a + Own(log, name) + b, other) == Own(log, other)
    {
      assert Own(a + b, other) == Own(Others(log, name), other);
      InsertedOwn(log, a, b, name, other);
    }
  }

  lemma {:induction false} FewerOthers(log: seq<Entry>, name: SlotName)
    ensures |Others(log, name)| <= |log|
    ensures (exists i :: 0 <= i < |log| && Name(log[i]) == name) ==> |Others(log, name)| < |log|
  {
    if log != [] {
      FewerOthers(log[..|log| - 1], name);
    }
  }

  lemma {:induction false} PlacedPrefix(val: Writes, records: Records, a: seq<Entry>, b: seq<Entry>)
    requires Placed(val, records, a + b)
    ensures Placed(val, records, a)
    decreases |b|
  {
    if b == [] {
      assert a + b == a;
    } else {
      assert (a + b)[..|a + b| - 1] == a + b[..|b| - 1];
      PlacedPrefix(val, records, a, b[..|b| - 1]);
    }
  }

  /** No entry of the others looks at the deepest slot. */
  lemma OthersAreShallower(val: Writes, records: Records, log: seq<Entry>, order: seq<Entry>, i: nat, name: SlotName)
    requires AllSawOldNameFree(val, records, log) && multiset(order) == multiset(Others(log, name))
    requires forall j :: 0 <= j < |log| ==> Depth(Name(log[j])) <= Depth(name)
    requires i < |order| && order[i].before.None?
    ensures OldName(Name(order[i])) != name
  {
    assert order[i] in multiset(Others(log, name));
    OthersNames(log, name);
    var j :| 0 <= j < |log| && log[j] == order[i];
    assert SawOldNameFree(val, records, log, log[j]);
    OldNameIsShallower(Name(order[i]));
  }

  /** The entries of the deepest slot fit into one gap of an order of the others. */
  lemma {:induction false} PlaceAll(val: Writes, records: Records, log: seq<Entry>) returns (order: seq<Entry>)
    requires AllSawOldNameFree(val, records, log)
    ensures Reordered(log, order) && Placed(val, records, order)
    decreases |log|, 1
  {
    order := log;
    if log != [] {
      var name := DeepestSlot(log);
      if name.Slot? {
        order := PlaceDeepest(val, records, log, name);
      } else {
        forall i | 0 <= i < |log|
          ensures log[i].before.Some?
        {
          assert SawOldNameFree(val, records, log, log[i]);
        }
        PlacedWithoutSlots(val, records, log);
      }
    }
  }

  lemma {:induction false} PlacedWithoutSlots(val: Writes, records: Records, log: seq<Entry>)
    requires forall i :: 0 <= i < |log| ==> log[i].before.Some?
    ensures Placed(val, records, log)
  {
    if log != [] {
      PlacedWithoutSlots(val, records, log[..|log| - 1]);
    }
  }

  lemma {:induction false} PlaceDeepest(val: Writes, records: Records, log: seq<Entry>, name: SlotName)
    returns (order: seq<Entry>)
    requires AllSawOldNameFree(val, records, log) && name.Slot?
    requires exists i :: 0 <= i < |log| && Name(log[i]) == name
    requires forall i :: 0 <= i < |log| ==> Depth(Name(log[i])) <= Depth(name)
    ensures Reordered(log, order) && Placed(val, records, order)
    decreases |log|, 0
  {
    var rest := Others(log, name);
    OthersSawOldNameFree(val, records, log, name);
    FewerOthers(log, name);
    var inner := PlaceAll(val, records, rest);
    OldNameIsShallower(name);
    OwnOfOthers(log, name, OldName(name));
    var g := GapFor(val, records, log, inner, name);
    assert inner == inner[..g] + inner[g..];
    order := inner[..g] + Own(log, name) + inner[g..];
    InsertedIsReordered(log, inner[..g], inner[g..], name);
    InsertedIsPlaced(val, records, log, inner[..g], inner[g..], name);
  }

  lemma NobodyLooks(val: Writes, records: Records, log: seq<Entry>, a: seq<Entry>, b: seq<Entry>, name: SlotName)
    requires AllSawOldNameFree(val, records, log) && multiset(a + b) == multiset(Others(log, name))
    requires forall j :: 0 <= j < |log| ==> Depth(Name(log[j])) <= Depth(name)
    ensures forall i :: 0 <= i < |b| && b[i].before.None? ==> OldName(Name(b[i])) != name
  {
    forall i | 0 <= i < |b| && b[i].before.None?
      ensures OldName(Name(b[i])) != name
    {
      assert (a + b)[|a| + i] == b[i];
      OthersAreShallower(val, records, log, a + b, |a| + i, name);
    }
  }

  lemma InsertedIsPlaced(val: Writes, records: Records, log: seq<Entry>, a: seq<Entry>, b: seq<Entry>, name: SlotName)
    requires AllSawOldNameFree(val, records, log) && name.Slot?
    requires forall i :: 0 <= i < |log| ==> Depth(Name(log[i])) <= Depth(name)
    requires multiset(a + b) == multiset(Others(log, name)) && Placed(val, records, a + b)
    requires (exists i :: 0 <= i < |Own(log, name)| && Own(log, name)[i].before.None?) ==>
               After(val, records, a, OldName(name)).None?
    ensures Placed(val, records, a + Own(log, name) + b)
  {
    var mine := Own(log, name);
    OwnNames(log, name);
    NobodyLooks(val, records, log, a, b, name);
    InsertIsPlaced(val, records, a, mine, b, name);
  }

  lemma InsertIsPlaced(val: Writes, records: Records, a: seq<Entry>, mine: seq<Entry>, b: seq<Entry>, name: SlotName)
    requires name.Slot? && Placed(val, records, a + b)
    requires forall i :: 0 <= i < |mine| ==> Name(mine[i]) == name
    requires (exists i :: 0 <= i < |mine| && mine[i].before.None?) ==> After(val, records, a, OldName(name)).None?
    requires forall i :: 0 <= i < |b| && b[i].before.None? ==> OldName(Name(b[i])) != name
    ensures Placed(val, records, a + mine + b)
  {
    PlacedPrefix(val, records, a, b);
    PlaceOne(val, records, a, mine, name);
    PlaceAround(val, records, a, mine, b, name);
  }

  // ----- what a run leaves behind -----

  /** What the entry's operation writes where it has found the old name unused. */
  function Written(e: Entry): Option<Raw> {
    if !e.m.WellConfigured() then None
    else
      var d := Decide(e.m, e.op, e.before, false, e.inp);
      if d.Put? then d.value else None
  }

  /** The entry is that of an operation which decided to write and gave this answer. */
  predicate Genuine(e: Entry) {
    && e.m.WellConfigured()
    && (e.before.None? ==> e.op.StoreKey?)
    && var d := Decide(e.m, e.op, e.before, false, e.inp);
       d.Put? && d.answer == e.answer
  }

  predicate AllGenuine(log: seq<Entry>) {
    forall i :: 0 <= i < |log| ==> Genuine(log[i])
  }

  /** What an actor knows of the old name still holds of some earlier state of it. */
  ghost predicate KnowsOldName(records: Records, log: seq<Entry>, p: Pending) {
    && p.m.WellConfigured()
    && ((p.stage.Checked? || p.stage.Asked?) && p.stage.prior.None? && !p.stage.legacy && !p.op.Reencrypt? ==>
          Empties(Written, records, Own(log, OldName(Target(p.op))), OldName(Target(p.op))))
  }

  ghost predicate LeftBy(val: Writes, records: Records, log: seq<Entry>, now: Records) {
    forall name: SlotName :: Lookup(now, name) == After(val, records, log, name)
  }

  ghost predicate Tracked(records: Records, w: World) {
    && AllGenuine(w.log) && Chained(Written, records, w.log) && AllSawOldNameFree(Written, records, w.log)
    && LeftBy(Written, records, w.log, w.records)
    && forall a :: a in w.busy ==> KnowsOldName(records, w.log, w.busy[a])
  }

  lemma EmptiesMore(val: Writes, records: Records, log: seq<Entry>, e: Entry, name: SlotName)
    requires Empties(val, records, Own(log, name), name)
    ensures Empties(val, records, Own(log + [e], name), name)
  {
    var own := Own(log, name);
    var n :| 0 <= n <= |own| && After(val, records, own[..n], name).None?;
    OwnConcat(log, [e], name);
    assert Own(log + [e], name)[..n] == own[..n];
  }

  lemma EmptyNow(val: Writes, records: Records, log: seq<Entry>, name: SlotName)
    requires After(val, records, log, name).None?
    ensures Empties(val, records, Own(log, name), name)
  {
    var own := Own(log, name);
    AfterOwn(val, records, log, name);
    assert own[..|own|] == own;
  }

  lemma AllSawMore(val: Writes, records: Records, log: seq<Entry>, e: Entry)
    requires AllSawOldNameFree(val, records, log) && SawOldNameFree(val, records, log, e)
    ensures AllSawOldNameFree(val, records, log + [e])
  {
    var all := log + [e];
    forall i | 0 <= i < |all|
      ensures SawOldNameFree(val, records, all, all[i])
    {
      assert all[i] == if i < |log| then log[i] else e;
      assert i < |log| ==> SawOldNameFree(val, records, log, log[i]);
      if all[i].before.None? {
        EmptiesMore(val, records, log, e, OldName(Name(all[i])));
      }
    }
  }

  /** What a commit adds to the log. */
  lemma CommitIsGenuine(records: Records, log: seq<Entry>, p: Pending, inp: Input)
    requires KnowsOldName(records, log, p) && ReadyToCommit(p) && Commitment(p, inp).1.Put?
    ensures var (used, d) := Commitment(p, inp);
            var e := Entry(p.m, p.op, used, p.stage.prior, d.answer);
            Genuine(e) && Written(e) == d.value && SawOldNameFree(Written, records, log, e)
  {
    var (used, d) := Commitment(p, inp);
    if p.stage.prior.None? {
      OnlyStoreCreates(p.m, p.op, p.stage.prior, p.stage.legacy, used);
      if p.stage.legacy {
        OldNameBlocks(p.m, p.op, p.stage.prior, used);
      }
    }
    OldNameOnlyWhenEmpty(p.m, p.op, p.stage.prior, p.stage.legacy, false, used);
  }

  lemma CommitTracked(records: Records, w: World, p: Pending, inp: Input)
    requires Tracked(records, w) && KnowsOldName(records, w.log, p) && ReadyToCommit(p)
    ensures Tracked(records, CommitStep(w, p, inp))
  {
    var (used, d) := Commitment(p, inp);
    if d.Put? && Lookup(w.records, Target(p.op)) == p.stage.prior {
      var e := Entry(p.m, p.op, used, p.stage.prior, d.answer);
      CommitIsGenuine(records, w.log, p, inp);
      EntryTracked(records, w, e);
      assert CommitStep(w, p, inp) == w.(records := PutRaw(w.records, Name(e), Written(e)), log := w.log + [e]);
    }
  }

  lemma LeftLast(val: Writes, records: Records, log: seq<Entry>, before: Records)
    requires log != [] && LeftBy(val, records, log[..|log| - 1], before)
    ensures LeftBy(val, records, log, PutRaw(before, Name(log[|log| - 1]), val(log[|log| - 1])))
  {
    var last := log[|log| - 1];
    forall name: SlotName
      ensures Lookup(PutRaw(before, Name(last), val(last)), name) == After(val, records, log, name)
    {
      assert Lookup(before, name) == After(val, records, log[..|log| - 1], name);
    }
  }

  lemma EntryTracked(records: Records, w: World, e: Entry)
    requires Tracked(records, w) && Genuine(e) && SawOldNameFree(Written, records, w.log, e)
    requires Lookup(w.records, Name(e)) == e.before
    ensures Tracked(records, w.(records := PutRaw(w.records, Name(e), Written(e)), log := w.log + [e]))
  {
    var log' := w.log + [e];
    assert log'[..|w.log|] == w.log;
    assert Lookup(w.records, Name(e)) == After(Written, records, w.log, Name(e));
    LeftLast(Written, records, log', w.records);
    AllSawMore(Written, records, w.log, e);
    forall a | a in w.busy
      ensures KnowsOldName(records, log', w.busy[a])
    {
      KnowsMore(records, w.log, e, w.busy[a]);
    }
  }

  lemma KnowsMore(records: Records, log: seq<Entry>, e: Entry, p: Pending)
    requires KnowsOldName(records, log, p)
    ensures KnowsOldName(records, log + [e], p)
  {
    var name := OldName(Target(p.op));
    if Empties(Written, records, Own(log, name), name) {
      EmptiesMore(Written, records, log, e, name);
    }
  }

  /** A step that writes nothing teaches one actor something about the store as it is. */
  lemma MoveKnows(records: Records, w: World, e: Event, a: nat)
    requires Tracked(records, w) && !e.Commit? && a in Step(w, e).busy
    ensures KnowsOldName(records, w.log, Step(w, e).busy[a])
  {
    if e.ReadOldName? && e.actor == a && a in w.busy && w.busy[a].stage.Fetched? {
      var name := OldName(Target(w.busy[a].op));
      if name !in w.records {
        EmptyNow(Written, records, w.log, name);
      }
    }
  }

  lemma StepTracked(records: Records, w: World, e: Event)
    requires Tracked(records, w)
    ensures Tracked(records, Step(w, e))
  {
    match e
    case Commit(a, inp) =>
      if a in w.busy && w.busy[a].m.WellConfigured() && ReadyToCommit(w.busy[a]) {
        CommitTracked(records, w.(busy := w.busy - {a}), w.busy[a], inp);
      }
    case _ =>
      forall a | a in Step(w, e).busy
        ensures KnowsOldName(records, w.log, Step(w, e).busy[a])
      {
        MoveKnows(records, w, e, a);
      }
  }

  lemma {:induction false} RunTracked(records: Records, probed: set<(Provider, string)>, es: seq<Event>)
    ensures Tracked(records, Run(Fresh(records, probed), es))
  {
    if es != [] {
      RunTracked(records, probed, es[..|es| - 1]);
      StepTracked(records, Run(Fresh(records, probed), es[..|es| - 1]), es[|es| - 1]);
    }
  }

  // ----- a serial order -----

  lemma AloneWrites(now: Records, e: Entry)
    requires Genuine(e) && Lookup(now, Name(e)) == e.before
    requires e.before.None? ==> OldName(Name(e)) !in now
    ensures var d := Alone(now, e); d.Put? && d.answer == e.answer && d.value == Written(e)
  {
    var occupied := !e.op.Reencrypt? && LegacyKey(e.op.tenant, e.op.provider) in now;
    OldNameOnlyWhenEmpty(e.m, e.op, e.before, occupied, false, e.inp);
  }

  lemma SerialLast(records: Records, order: seq<Entry>, before: Records)
    requires AllGenuine(order) && order != []
    requires Chained(Written, records, order) && Placed(Written, records, order)
    requires var front := order[..|order| - 1];
             Runnable(front) && Serial(records, front) == Ok(before) && LeftBy(Written, records, front, before)
    ensures Runnable(order)
    ensures Serial(records, order) == Ok(PutRaw(before, Name(order[|order| - 1]), Written(order[|order| - 1])))
  {
    var front, last := order[..|order| - 1], order[|order| - 1];
    assert Lookup(before, Name(last)) == After(Written, records, front, Name(last));
    assert Lookup(before, OldName(Name(last))) == After(Written, records, front, OldName(Name(last)));
    AloneWrites(before, last);
  }

  /** An order in which each entry finds what it found in the run is serial. */
  lemma {:induction false} PlacedIsSerial(records: Records, order: seq<Entry>) returns (now: Records)
    requires AllGenuine(order) && Chained(Written, records, order) && Placed(Written, records, order)
    ensures Runnable(order) && Serial(records, order) == Ok(now) && LeftBy(Written, records, order, now)
  {
    if order == [] {
      return records;
    }
    var n := |order| - 1;
    var before := PlacedIsSerial(records, order[..n]);
    now := PutRaw(before, Name(order[n]), Written(order[n]));
    SerialLast(records, order, before);
    LeftLast(Written, records, order, before);
  }

  lemma SameStore(a: Records, b: Records)
    requires forall name: SlotName :: Lookup(a, name) == Lookup(b, name)
    ensures a == b
  {
    forall name: SlotName
      ensures name in a <==> name in b
      ensures name in a ==> a[name] == b[name]
    {
      assert Lookup(a, name) == Lookup(b, name);
    }
  }

  /** The same entries in another order are genuine, and each still replaces what it replaced. */
  lemma ReorderedKeeps(records: Records, log: seq<Entry>, order: seq<Entry>)
    requires Reordered(log, order) && AllGenuine(log) && Chained(Written, records, log)
    ensures AllGenuine(order) && Chained(Written, records, order)
    ensures forall name: SlotName :: After(Written, records, order, name) == After(Written, records, log, name)
  {
    forall i | 0 <= i < |order|
      ensures Genuine(order[i])
    {
      assert order[i] in multiset(log);
    }
    forall name: SlotName
      ensures Chained(Written, records, Own(order, name))
      ensures After(Written, records, order, name) == After(Written, records, log, name)
    {
      ChainedOwn(Written, records, log, name);
      SameOwnSameAfter(Written, records, order, log, name);
    }
    ChainedBySlot(Written, records, order);
  }

  /**
    Serializability, without any condition on the tenants: after every run there is an order of the
    committed operations, with those on any one slot in commit order, in which each of them, alone with the
    store, gives the same answer, and which leaves the same store.
   */
  lemma SomeOrderIsSerial(records: Records, probed: set<(Provider, string)>, es: seq<Event>)
    returns (order: seq<Entry>)
    ensures Reordered(Run(Fresh(records, probed), es).log, order) && Runnable(order)
    ensures Serial(records, order) == Ok(Run(Fresh(records, probed), es).records)
  {
    var w := Run(Fresh(records, probed), es);
    RunTracked(records, probed, es);
    order := PlaceAll(Written, records, w.log);
    ReorderedKeeps(records, w.log, order);
    var now := PlacedIsSerial(records, order);
    SameStore(now, w.records);
  }
}
