/**
  What redaction keeps of a value: everything that holds no credential, in its place and order; and of a
  dictionary in general, every key's last value.
 */
module RedactionValues {
  import opened Wrappers
  import opened Redaction

  // ----- values without credentials -----

  /** The value with tuples as lists and exceptions as text. */
  function Plain(v: Value): Value
    decreases v, 1
  {
    match v
    case Str(t) => v
    case Exc(t) => Str(t)
    case Atom(_) => v
    case List(es) => List(PlainAll(es))
    case Tuple(es) => List(PlainAll(es))
    case Dict(items) => Dict(PlainItems(items))
  }

  function PlainAll(es: seq<Value>): (r: seq<Value>)
    ensures |r| == |es| && forall i :: 0 <= i < |es| ==> r[i] == Plain(es[i])
    decreases es, 0
  {
    if es == [] then [] else PlainAll(es[..|es| - 1]) + [Plain(es[|es| - 1])]
  }

  function PlainItems(items: seq<Item>): (r: seq<Item>)
    ensures |r| == |items| && forall i :: 0 <= i < |items| ==> r[i] == PlainOf(items[i])
    decreases items, 0
  {
    if items == [] then [] else PlainItems(items[..|items| - 1]) + [PlainOf(items[|items| - 1])]
  }

  function PlainOf(item: Item): Item
    decreases item, 2
  {
    Item(Plain(item.key), Plain(item.value))
  }

  /** No two keys of a dictionary, at any depth, read the same. */
  predicate DistinctKeys(v: Value)
    decreases v, 1
  {
    match v
    case List(es) => forall e :: e in es ==> DistinctKeys(e)
    case Tuple(es) => forall e :: e in es ==> DistinctKeys(e)
    case Dict(items) => (forall kv :: kv in items ==> DistinctInside(kv)) && DifferentKeys(items)
    case _ => true
  }

  predicate DistinctInside(item: Item)
    decreases item, 2
  {
    DistinctKeys(item.key) && DistinctKeys(item.value)
  }

  predicate DifferentKeys(items: seq<Item>) {
    forall i, j :: 0 <= i < j < |items| ==> Plain(items[i].key) != Plain(items[j].key)
  }

  /** No active credential occurs in any key or string. */
  predicate Free(v: Value, active: seq<string>) {
    forall c :: c in active ==> Clean(v, c)
  }

  lemma {:induction false} AssignNew(items: seq<Item>, key: Value, value: Value)
    requires forall i :: 0 <= i < |items| ==> items[i].key != key
    ensures Assign(items, key, value) == items + [Item(key, value)]
  {
    if items != [] {
      AssignNew(items[1..], key, value);
      assert items == [items[0]] + items[1..];
    }
  }

  lemma FreeText(t: string, active: seq<string>)
    requires NonEmpty(active) && forall c :: c in active ==> !Occurs(c, t)
    ensures RedactText(t, active) == t
  {
    SortIsSorted(active);
    SortKeeps(active);
    RedactAllNothing(t, SortByLength(active));
  }

  /**
    Nothing else is lost: a value that holds no active credential, with plain and distinct keys, comes back as it
    was, atoms and order included, only with tuples as lists and exceptions as text.
   */
  lemma {:induction false} FreeValuesAreKept(v: Value, active: seq<string>)
    requires NonEmpty(active) && PlainKeys(v) && DistinctKeys(v) && Free(v, active)
    ensures Redact(v, active) == Some(Plain(v))
    decreases v, 1
  {
    match v
    case Str(t) => FreeString(v, t, active);
    case Exc(t) => FreeString(v, t, active);
    case Atom(_) =>
    case List(es) =>
      FreeInside(v, es, active);
      FreeElemsAreKept(es, active);
    case Tuple(es) =>
      FreeInside(v, es, active);
      FreeElemsAreKept(es, active);
    case Dict(items) =>
      FreeInsideDict(v, items, active);
      FreeItemsAreKept(items, active);
  }

  lemma FreeString(v: Value, t: string, active: seq<string>)
    requires NonEmpty(active) && (v == Str(t) || v == Exc(t)) && Free(v, active)
    ensures RedactText(t, active) == t
  {
    forall c | c in active
      ensures !Occurs(c, t)
    {
      assert Clean(v, c);
    }
    FreeText(t, active);
  }

  lemma FreeInside(v: Value, es: seq<Value>, active: seq<string>)
    requires (v == List(es) || v == Tuple(es)) && Free(v, active)
    ensures forall e :: e in es ==> Free(e, active)
  {
    forall e, c | e in es && c in active
      ensures Clean(e, c)
    {
      assert Clean(v, c);
    }
  }

  lemma FreeInsideDict(v: Value, items: seq<Item>, active: seq<string>)
    requires v == Dict(items) && Free(v, active)
    ensures forall kv :: kv in items ==> Free(kv.key, active) && Free(kv.value, active)
  {
    forall kv, c | kv in items && c in active
      ensures Clean(kv.key, c) && Clean(kv.value, c)
    {
      assert Clean(v, c);
      assert CleanItem(kv, c);
    }
  }

  lemma {:induction false} FreeElemsAreKept(es: seq<Value>, active: seq<string>)
    requires NonEmpty(active)
    requires forall e :: e in es ==> PlainKeys(e) && DistinctKeys(e) && Free(e, active)
    ensures RedactElems(es, active) == Some(List(PlainAll(es)))
    decreases es, 0
  {
    if es != [] {
      FreeElemsAreKept(es[..|es| - 1], active);
      FreeValuesAreKept(es[|es| - 1], active);
    }
  }

  lemma {:induction false} FreeItemsAreKept(items: seq<Item>, active: seq<string>)
    requires NonEmpty(active) && DifferentKeys(items)
    requires forall kv :: kv in items ==>
               PlainItem(kv) && DistinctInside(kv) && Free(kv.key, active) && Free(kv.value, active)
    ensures RedactItems(items, active) == Some(Dict(PlainItems(items)))
    decreases items, 0
  {
    if items != [] {
      var front, last := items[..|items| - 1], items[|items| - 1];
      FreeItemsAreKept(front, active);
      FreeItemIsKept(last, active);
      AssignNew(PlainItems(front), Plain(last.key), Plain(last.value));
    }
  }

  lemma FreeItemIsKept(item: Item, active: seq<string>)
    requires NonEmpty(active) && PlainItem(item) && DistinctInside(item)
    requires Free(item.key, active) && Free(item.value, active)
    ensures RedactItem(item, active) == Some(PlainOf(item))
    decreases item, 2
  {
    FreeValuesAreKept(item.key, active);
    FreeValuesAreKept(item.value, active);
  }

  // ----- dictionaries in general -----

  function KeyOf(items: seq<Item>, active: seq<string>, i: nat): Option<Value>
    requires NonEmpty(active) && i < |items|
  {
    Redact(items[i].key, active)
  }

  /** The last item whose redacted key this is. */
  predicate LastWithKey(items: seq<Item>, active: seq<string>, i: nat, key: Value)
    requires NonEmpty(active) && i < |items|
  {
    && KeyOf(items, active, i) == Some(key)
    && forall j :: i < j < |items| ==> KeyOf(items, active, j) != Some(key)
  }

  predicate KeysOnce(items: seq<Item>) {
    forall i, j :: 0 <= i < j < |items| ==> items[i].key != items[j].key
  }

  /** Every entry of the result is the redaction of the last item with its key. */
  ghost predicate EntryIsLast(items: seq<Item>, active: seq<string>, entry: Item)
    requires NonEmpty(active)
  {
    exists i :: 0 <= i < |items| && LastWithKey(items, active, i, entry.key)
                && Redact(items[i].value, active) == Some(entry.value)
  }

  lemma {:induction false} AssignSets(items: seq<Item>, key: Value, value: Value)
    requires KeysOnce(items)
    ensures KeysOnce(Assign(items, key, value))
    ensures forall e :: e in Assign(items, key, value) <==> e == Item(key, value) || (e in items && e.key != key)
  {
    if items != [] {
      var rest := items[1..];
      assert items == [items[0]] + rest;
      if items[0].key == key {
        forall e | e in rest
          ensures e.key != key
        {
        }
      } else {
        AssignSets(rest, key, value);
        var longer := Assign(rest, key, value);
        forall j | 0 <= j < |longer|
          ensures longer[j].key != items[0].key
        {
          assert longer[j] in longer;
        }
      }
    }
  }

  lemma EntryStays(front: seq<Item>, last: Item, active: seq<string>, entry: Item)
    requires NonEmpty(active) && EntryIsLast(front, active, entry) && Redact(last.key, active) != Some(entry.key)
    ensures EntryIsLast(front + [last], active, entry)
  {
    var items := front + [last];
    var i :| 0 <= i < |front| && LastWithKey(front, active, i, entry.key)
             && Redact(front[i].value, active) == Some(entry.value);
    assert items[i] == front[i];
    forall j | i < j < |items|
      ensures KeyOf(items, active, j) != Some(entry.key)
    {
      assert j < |front| ==> KeyOf(front, active, j) != Some(entry.key);
    }
    assert LastWithKey(items, active, i, entry.key);
  }

  lemma EntryIsAdded(front: seq<Item>, last: Item, active: seq<string>)
    requires NonEmpty(active) && RedactItem(last, active).Some?
    ensures EntryIsLast(front + [last], active, RedactItem(last, active).value)
  {
    assert LastWithKey(front + [last], active, |front|, RedactItem(last, active).value.key);
  }

  ghost predicate HoldsKey(items: seq<Item>, key: Option<Value>) {
    key.Some? && exists e :: e in items && e.key == key.value
  }

  lemma KeyStays(before: seq<Item>, added: Item, key: Option<Value>)
    requires KeysOnce(before) && (HoldsKey(before, key) || key == Some(added.key))
    ensures HoldsKey(Assign(before, added.key, added.value), key)
  {
    AssignSets(before, added.key, added.value);
    var out := Assign(before, added.key, added.value);
    assert added == Item(added.key, added.value) && added in out;
    if key != Some(added.key) {
      var e :| e in before && e.key == key.value;
      assert e in out;
    }
  }

  /**
    A redacted dictionary holds exactly the redactions of its keys, each once, and each with the redaction of the
    value of the last item that has this redacted key.
   */
  lemma {:induction false} DictKeepsLastValues(items: seq<Item>, active: seq<string>)
    requires NonEmpty(active) && RedactItems(items, active).Some?
    ensures var out := RedactItems(items, active).value.items;
            && KeysOnce(out)
            && (forall e :: e in out ==> EntryIsLast(items, active, e))
            && (forall i :: 0 <= i < |items| ==> HoldsKey(out, KeyOf(items, active, i)))
  {
    if items != [] {
      var front, last := items[..|items| - 1], items[|items| - 1];
      assert items == front + [last];
      var before, added := RedactItems(front, active).value.items, RedactItem(last, active).value;
      var out := Assign(before, added.key, added.value);
      DictKeepsLastValues(front, active);
      AssignSets(before, added.key, added.value);
      forall e | e in out
        ensures EntryIsLast(items, active, e)
      {
        if e == Item(added.key, added.value) {
          EntryIsAdded(front, last, active);
        } else {
          EntryStays(front, last, active, e);
        }
      }
      forall i | 0 <= i < |items|
        ensures HoldsKey(out, KeyOf(items, active, i))
      {
        assert i < |front| ==> KeyOf(items, active, i) == KeyOf(front, active, i);
        KeyStays(before, added, KeyOf(items, active, i));
      }
    }
  }

  // ----- the order of a dictionary -----

  function Keys(items: seq<Item>): (r: seq<Value>)
    ensures |r| == |items| && forall i :: 0 <= i < |items| ==> r[i] == items[i].key
  {
    seq(|items|, i requires 0 <= i < |items| => items[i].key)
  }

  /** The redacted keys, one for each item. */
  function RedactedKeys(items: seq<Item>, active: seq<string>): seq<Option<Value>>
    requires NonEmpty(active)
  {
    seq(|items|, i requires 0 <= i < |items| => Redact(items[i].key, active))
  }

  /** Every value where it occurs first. */
  function Firsts(keys: seq<Option<Value>>): seq<Value> {
    if keys == [] then []
    else
      var front, last := Firsts(keys[..|keys| - 1]), keys[|keys| - 1];
      if last.None? || last.value in front then front else front + [last.value]
  }

  lemma KeysCons(x: Item, rest: seq<Item>)
    ensures Keys([x] + rest) == [x.key] + Keys(rest)
  {
  }

  lemma Follow(keys: seq<Value>, first: Value, key: Value)
    requires first != key
    ensures (if key in [first] + keys then [first] + keys else [first] + keys + [key])
         == [first] + (if key in keys then keys else keys + [key])
  {
  }

  lemma {:induction false} AssignKeys(items: seq<Item>, key: Value, value: Value)
    ensures Keys(Assign(items, key, value)) == if key in Keys(items) then Keys(items) else Keys(items) + [key]
  {
    if items == [] {
      KeysCons(Item(key, value), []);
      assert [Item(key, value)] + [] == [Item(key, value)] && [key] + Keys([]) == Keys([]) + [key];
    } else {
      var first, rest := items[0], items[1..];
      assert items == [first] + rest;
      KeysCons(first, rest);
      if first.key == key {
        KeysCons(Item(key, value), rest);
      } else {
        AssignKeys(rest, key, value);
        KeysCons(first, Assign(rest, key, value));
        Follow(Keys(rest), first.key, key);
      }
    }
  }

  /** The keys of a redacted dictionary stand in the order in which they occur first. */
  lemma {:induction false} DictKeepsOrder(items: seq<Item>, active: seq<string>)
    requires NonEmpty(active) && RedactItems(items, active).Some?
    ensures Keys(RedactItems(items, active).value.items) == Firsts(RedactedKeys(items, active))
  {
    if items != [] {
      var front, last := items[..|items| - 1], items[|items| - 1];
      var added := RedactItem(last, active).value;
      DictKeepsOrder(front, active);
      AssignKeys(RedactItems(front, active).value.items, added.key, added.value);
      var keys := RedactedKeys(items, active);
      assert keys[..|keys| - 1] == RedactedKeys(front, active) && keys[|keys| - 1] == Some(added.key);
    }
  }
}
