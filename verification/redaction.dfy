/**
  Exact-value redaction of the credentials a request has used. Credentials are replaced one after another,
  longest first, in every key and string of a nested value.
 */
module Redaction {
  import opened Wrappers

  const INNER := "REDACTED_SECRET"
  const MARKER := "[" + INNER + "]"

  // ----- occurrences -----

  predicate IsPrefix(p: string, s: string) {
    |p| <= |s| && s[..|p|] == p
  }

  predicate OccursAt(p: string, s: string, i: nat) {
    i + |p| <= |s| && s[i..i + |p|] == p
  }

  predicate Occurs(p: string, s: string) {
    exists i: nat :: i <= |s| && OccursAt(p, s, i)
  }

  /** `s.replace(p, mark)` for a non-empty `p`: leftmost matches, none overlapping. */
  function Replace(s: string, p: string, mark: string): string
    requires p != ""
    decreases |s|
  {
    if |s| < |p| then s
    else if IsPrefix(p, s) then mark + Replace(s[|p|..], p, mark)
    else [s[0]] + Replace(s[1..], p, mark)
  }

  lemma OccursInTail(p: string, s: string, n: nat)
    requires n <= |s| && Occurs(p, s[n..])
    ensures Occurs(p, s)
  {
    var i: nat :| i <= |s[n..]| && OccursAt(p, s[n..], i);
    assert s[n + i..n + i + |p|] == s[n..][i..i + |p|];
    assert OccursAt(p, s, n + i);
  }

  lemma PrefixOccurs(p: string, s: string)
    requires IsPrefix(p, s)
    ensures Occurs(p, s)
  {
    assert OccursAt(p, s, 0);
  }

  /** An occurrence in a concatenation that starts in the second part lies in the second part. */
  lemma OccursAfter(p: string, a: string, b: string, i: nat)
    requires OccursAt(p, a + b, i) && i >= |a|
    ensures Occurs(p, b)
  {
    assert (a + b)[i..i + |p|] == b[i - |a|..i - |a| + |p|];
    assert OccursAt(p, b, i - |a|);
  }

  // ----- replacing as splitting and joining -----

  /** The pieces between the matches. */
  function Split(s: string, p: string): (pieces: seq<string>)
    requires p != ""
    ensures pieces != []
    decreases |s|
  {
    if |s| < |p| then [s]
    else if IsPrefix(p, s) then [""] + Split(s[|p|..], p)
    else
      var rest := Split(s[1..], p);
      [[s[0]] + rest[0]] + rest[1..]
  }

  function Join(pieces: seq<string>, sep: string): string
    requires pieces != []
  {
    if |pieces| == 1 then pieces[0] else pieces[0] + sep + Join(pieces[1..], sep)
  }

  lemma JoinFirst(c: char, pieces: seq<string>, sep: string)
    requires pieces != []
    ensures Join([[c] + pieces[0]] + pieces[1..], sep) == [c] + Join(pieces, sep)
  {
    var longer := [[c] + pieces[0]] + pieces[1..];
    assert longer[1..] == pieces[1..];
  }

  lemma JoinEmptyFirst(pieces: seq<string>, sep: string)
    requires pieces != []
    ensures Join([""] + pieces, sep) == sep + Join(pieces, sep)
  {
    assert ([""] + pieces)[1..] == pieces;
    assert "" + sep == sep;
  }

  /** Joining the pieces with what was split at gives the text back. */
  lemma {:induction false} SplitThenJoin(s: string, p: string)
    requires p != ""
    ensures Join(Split(s, p), p) == s
    decreases |s|
  {
    if |s| >= |p| {
      if IsPrefix(p, s) {
        SplitThenJoin(s[|p|..], p);
        JoinEmptyFirst(Split(s[|p|..], p), p);
      } else {
        SplitThenJoin(s[1..], p);
        JoinFirst(s[0], Split(s[1..], p), p);
      }
    }
  }

  /** Replacing joins the same pieces with the mark: what lies between the matches never changes. */
  lemma {:induction false} ReplaceRejoins(s: string, p: string, mark: string)
    requires p != ""
    ensures Join(Split(s, p), mark) == Replace(s, p, mark)
    decreases |s|
  {
    if |s| >= |p| {
      if IsPrefix(p, s) {
        ReplaceRejoins(s[|p|..], p, mark);
        JoinEmptyFirst(Split(s[|p|..], p), mark);
      } else {
        ReplaceRejoins(s[1..], p, mark);
        JoinFirst(s[0], Split(s[1..], p), mark);
      }
    }
  }

  // ----- text and marker -----

  /** Laid over the marker from its position `i` on, the text agrees with it wherever both have a character. */
  predicate Meets(q: string, i: int) {
    forall k :: 0 <= k < |q| && 0 <= i + k < |MARKER| ==> q[k] == MARKER[i + k]
  }

  /** The text overlaps no end of the marker: where it meets the marker at all, it lies inside. */
  predicate OnlyInside(q: string) {
    forall i: int :: -|q| < i < |MARKER| && Meets(q, i) ==> 0 <= i <= |MARKER| - |q|
  }

  /** No overlap with an end of the marker, and no part of it. */
  predicate Harmless(c: string) {
    c != "" && OnlyInside(c) && !Occurs(c, MARKER)
  }

  predicate BracketFree(s: string) {
    '[' !in s && ']' !in s
  }

  /** Text without brackets is of this kind: it can only meet the marker between its brackets. */
  lemma BracketFreeIsOnlyInside(q: string)
    requires BracketFree(q) && q != ""
    ensures OnlyInside(q) && (Harmless(q) <==> !Occurs(q, INNER))
  {
    assert MARKER[0] == '[' && MARKER[|MARKER| - 1] == ']';
    forall i: int | -|q| < i < |MARKER| && !(0 < i < |MARKER| - |q|)
      ensures !Meets(q, i)
    {
      if i <= 0 {
        assert q[0 - i] != '[' && i + (0 - i) == 0;
      } else {
        assert q[|MARKER| - 1 - i] != ']' && i + (|MARKER| - 1 - i) == |MARKER| - 1;
      }
    }
    if Occurs(q, MARKER) {
      var i: nat :| i <= |MARKER| && OccursAt(q, MARKER, i);
      MeetsWhereOccurs(q, "", i);
      assert INNER[i - 1..i - 1 + |q|] == MARKER[i..i + |q|];
      assert OccursAt(q, INNER, i - 1);
    }
    if Occurs(q, INNER) {
      assert OccursAt(INNER, MARKER, 1);
      OccursWithin(q, INNER, MARKER);
    }
  }

  lemma MeetsWhereOccurs(q: string, rest: string, i: nat)
    requires OccursAt(q, MARKER + rest, i)
    ensures Meets(q, i)
  {
    var t := MARKER + rest;
    forall k | 0 <= k < |q| && 0 <= i + k < |MARKER|
      ensures q[k] == MARKER[i + k]
    {
      assert t[i..i + |q|][k] == t[i + k];
    }
  }

  /** Such a text can only overlap a marker inside it. */
  lemma OverlapIsInside(q: string, rest: string, i: nat)
    requires OnlyInside(q) && q != "" && OccursAt(q, MARKER + rest, i) && i < |MARKER|
    ensures Occurs(q, MARKER)
  {
    MeetsWhereOccurs(q, rest, i);
    assert MARKER[i..i + |q|] == (MARKER + rest)[i..i + |q|];
    assert OccursAt(q, MARKER, i);
  }

  lemma OccursWithin(a: string, b: string, c: string)
    requires Occurs(a, b) && Occurs(b, c)
    ensures Occurs(a, c)
  {
    var i: nat :| i <= |b| && OccursAt(a, b, i);
    var j: nat :| j <= |c| && OccursAt(b, c, j);
    forall k | 0 <= k < |a|
      ensures c[j + i..j + i + |a|][k] == a[k]
    {
      assert c[j..j + |b|][i + k] == b[i + k] && b[i..i + |a|][k] == a[k];
    }
    assert OccursAt(a, c, j + i);
  }

  lemma PrefixOfTail(q: string, c: char, tail: string)
    requires q != "" && IsPrefix(q, [c] + tail)
    ensures q[0] == c && IsPrefix(q[1..], tail)
  {
    var r := [c] + tail;
    assert r[..|q|][0] == c;
    forall k | 0 <= k < |q| - 1
      ensures tail[k] == q[1..][k]
    {
      assert r[..|q|][k + 1] == r[k + 1];
    }
  }

  lemma PrefixOfWhole(q: string, s: string)
    requires q != "" && s != "" && q[0] == s[0] && IsPrefix(q[1..], s[1..])
    ensures IsPrefix(q, s)
  {
    forall k | 0 <= k < |q|
      ensures s[k] == q[k]
    {
      if k > 0 {
        assert s[1..][..|q| - 1][k - 1] == q[1..][k - 1];
      }
    }
  }

  /** What is left of a harmless text from `d` on cannot begin a marker. */
  lemma RestIsNoStart(q: string, d: nat, r: string)
    requires Harmless(q) && d < |q| && IsPrefix(MARKER, r)
    ensures !IsPrefix(q[d..], r)
  {
    if IsPrefix(q[d..], r) {
      var i: int := 0 - d;
      forall k | 0 <= k < |q| && 0 <= i + k < |MARKER|
        ensures q[k] == MARKER[i + k]
      {
        assert q[d..][k - d] == r[..|q| - d][k - d] == r[k - d];
        assert r[..|MARKER|][k - d] == r[k - d];
      }
      assert Meets(q, i);
      WholeIsInside(q);
    }
  }

  lemma WholeIsInside(q: string)
    requires Meets(q, 0) && |q| <= |MARKER|
    ensures Occurs(q, MARKER)
  {
    assert MARKER[0..0 + |q|] == q;
    assert OccursAt(q, MARKER, 0);
  }

  /** The rest of a harmless text that begins the result already began the text. */
  lemma {:induction false} PrefixWasThere(q: string, d: nat, s: string, p: string)
    requires p != "" && Harmless(q) && d <= |q| && IsPrefix(q[d..], Replace(s, p, MARKER))
    ensures IsPrefix(q[d..], s)
    decreases |s|
  {
    if |s| >= |p| && d < |q| {
      var r := Replace(s, p, MARKER);
      if IsPrefix(p, s) {
        assert r[..|MARKER|] == MARKER;
        RestIsNoStart(q, d, r);
      } else {
        var tail := Replace(s[1..], p, MARKER);
        assert r == [s[0]] + tail;
        PrefixOfTail(q[d..], s[0], tail);
        assert q[d..][1..] == q[d + 1..];
        PrefixWasThere(q, d + 1, s[1..], p);
        PrefixOfWhole(q[d..], s);
      }
    }
  }

  /** Replacing brings no harmless text into being. */
  lemma {:induction false} ReplaceCreatesNothing(q: string, s: string, p: string)
    requires p != "" && Harmless(q) && Occurs(q, Replace(s, p, MARKER))
    ensures Occurs(q, s)
    decreases |s|
  {
    if |s| >= |p| {
      var r := Replace(s, p, MARKER);
      var i: nat :| i <= |r| && OccursAt(q, r, i);
      if IsPrefix(p, s) {
        var tail := Replace(s[|p|..], p, MARKER);
        assert r == MARKER + tail;
        if i < |MARKER| {
          OverlapIsInside(q, tail, i);
        }
        OccursAfter(q, MARKER, tail, i);
        ReplaceCreatesNothing(q, s[|p|..], p);
        OccursInTail(q, s, |p|);
      } else {
        var tail := Replace(s[1..], p, MARKER);
        assert r == [s[0]] + tail;
        if i == 0 {
          assert IsPrefix(q, r);
          assert q[0..] == q;
          PrefixWasThere(q, 0, s, p);
          PrefixOccurs(q, s);
        } else {
          OccursAfter(q, [s[0]], tail, i);
          ReplaceCreatesNothing(q, s[1..], p);
          OccursInTail(q, s, 1);
        }
      }
    }
  }

  /** What was replaced is gone. */
  lemma {:induction false} ReplaceRemoves(s: string, p: string)
    requires p != "" && Harmless(p)
    ensures !Occurs(p, Replace(s, p, MARKER))
    decreases |s|
  {
    var r := Replace(s, p, MARKER);
    if Occurs(p, r) {
      var i: nat :| i <= |r| && OccursAt(p, r, i);
      if |s| >= |p| {
        if IsPrefix(p, s) {
          var tail := Replace(s[|p|..], p, MARKER);
          assert r == MARKER + tail;
          ReplaceRemoves(s[|p|..], p);
          if i < |MARKER| {
            OverlapIsInside(p, tail, i);
          } else {
            OccursAfter(p, MARKER, tail, i);
          }
        } else {
          var tail := Replace(s[1..], p, MARKER);
          assert r == [s[0]] + tail;
          ReplaceRemoves(s[1..], p);
          if i == 0 {
            assert IsPrefix(p, r);
            assert p[0..] == p;
            PrefixWasThere(p, 0, s, p);
          } else {
            OccursAfter(p, [s[0]], tail, i);
          }
        }
      }
    }
  }

  /** Text that does not hold the credential is left exactly as it was. */
  lemma {:induction false} ReplaceNothing(s: string, p: string, mark: string)
    requires p != "" && !Occurs(p, s)
    ensures Replace(s, p, mark) == s
    decreases |s|
  {
    if |s| >= |p| {
      if IsPrefix(p, s) {
        PrefixOccurs(p, s);
      }
      if Occurs(p, s[1..]) {
        OccursInTail(p, s, 1);
      }
      ReplaceNothing(s[1..], p, mark);
    }
  }

  // ----- all credentials, longest first -----

  /** Inserting before everything that is not longer keeps equal lengths in their order. */
  function InsertByLength(x: string, sorted: seq<string>): seq<string> {
    if sorted == [] || |x| >= |sorted[0]| then [x] + sorted
    else [sorted[0]] + InsertByLength(x, sorted[1..])
  }

  /** `sorted(secrets, key=len, reverse=True)`. */
  function SortByLength(secrets: seq<string>): seq<string> {
    if secrets == [] then [] else InsertByLength(secrets[0], SortByLength(secrets[1..]))
  }

  predicate LongestFirst(secrets: seq<string>) {
    forall i, j :: 0 <= i < j < |secrets| ==> |secrets[i]| >= |secrets[j]|
  }

  lemma {:induction false} InsertIsSorted(x: string, sorted: seq<string>)
    requires LongestFirst(sorted)
    ensures LongestFirst(InsertByLength(x, sorted))
    ensures forall y :: y in InsertByLength(x, sorted) <==> y == x || y in sorted
  {
    if sorted != [] && |x| < |sorted[0]| {
      var rest := InsertByLength(x, sorted[1..]);
      InsertIsSorted(x, sorted[1..]);
      assert sorted == [sorted[0]] + sorted[1..];
      forall j | 0 <= j < |rest|
        ensures |sorted[0]| >= |rest[j]|
      {
        assert rest[j] in rest;
      }
    }
  }

  lemma {:induction false} SortIsSorted(secrets: seq<string>)
    ensures LongestFirst(SortByLength(secrets))
    ensures forall y :: y in SortByLength(secrets) <==> y in secrets
  {
    if secrets != [] {
      SortIsSorted(secrets[1..]);
      InsertIsSorted(secrets[0], SortByLength(secrets[1..]));
      assert secrets == [secrets[0]] + secrets[1..];
    }
  }

  /** Sorting keeps whatever holds of every single credential. */
  lemma SortKeeps(secrets: seq<string>)
    ensures NonEmpty(secrets) ==> NonEmpty(SortByLength(secrets))
    ensures AllOnlyInside(secrets) ==> AllOnlyInside(SortByLength(secrets))
    ensures AllHarmless(secrets) ==> AllHarmless(SortByLength(secrets))
  {
    var sorted := SortByLength(secrets);
    SortIsSorted(secrets);
    forall i | 0 <= i < |sorted|
      ensures exists j :: 0 <= j < |secrets| && secrets[j] == sorted[i]
    {
      assert sorted[i] in sorted;
    }
  }

  predicate NonEmpty(secrets: seq<string>) {
    forall i :: 0 <= i < |secrets| ==> secrets[i] != ""
  }

  predicate AllOnlyInside(secrets: seq<string>) {
    forall i :: 0 <= i < |secrets| ==> OnlyInside(secrets[i])
  }

  /** The replacements of a list of credentials, one after another. */
  function RedactAll(text: string, secrets: seq<string>): string
    requires NonEmpty(secrets)
    decreases |secrets|
  {
    if secrets == [] then text else RedactAll(Replace(text, secrets[0], MARKER), secrets[1..])
  }

  function RedactText(text: string, active: seq<string>): string
    requires NonEmpty(active)
  {
    SortKeeps(active);
    RedactAll(text, SortByLength(active))
  }

  /** The loop of the source. */
  method RedactString(value: string, active: seq<string>) returns (r: string)
    requires NonEmpty(active)
    ensures r == RedactText(value, active)
  {
    SortKeeps(active);
    var secrets := SortByLength(active);
    r := value;
    for i := 0 to |secrets|
      invariant RedactAll(r, secrets[i..]) == RedactAll(value, secrets)
    {
      assert secrets[i..][1..] == secrets[i + 1..];
      r := Replace(r, secrets[i], MARKER);
    }
  }

  predicate AllHarmless(secrets: seq<string>) {
    forall i :: 0 <= i < |secrets| ==> Harmless(secrets[i])
  }

  /** Later replacements never bring an earlier credential back. */
  lemma {:induction false} AbsentStaysAbsent(q: string, text: string, secrets: seq<string>)
    requires NonEmpty(secrets) && Harmless(q) && !Occurs(q, text)
    ensures !Occurs(q, RedactAll(text, secrets))
    decreases |secrets|
  {
    if secrets != [] {
      var next := Replace(text, secrets[0], MARKER);
      if Occurs(q, next) {
        ReplaceCreatesNothing(q, text, secrets[0]);
      }
      AbsentStaysAbsent(q, next, secrets[1..]);
    }
  }

  /** A harmless credential of the list is gone, whatever the others are. */
  lemma {:induction false} RedactAllRemoves(text: string, secrets: seq<string>, c: string)
    requires NonEmpty(secrets) && Harmless(c) && c in secrets
    ensures !Occurs(c, RedactAll(text, secrets))
    decreases |secrets|
  {
    var next := Replace(text, secrets[0], MARKER);
    if c == secrets[0] {
      ReplaceRemoves(text, c);
      AbsentStaysAbsent(c, next, secrets[1..]);
    } else {
      assert secrets == [secrets[0]] + secrets[1..];
      RedactAllRemoves(next, secrets[1..], c);
    }
  }

  lemma RedactTextRemoves(text: string, active: seq<string>, c: string)
    requires NonEmpty(active) && Harmless(c) && c in active
    ensures !Occurs(c, RedactText(text, active))
  {
    SortIsSorted(active);
    SortKeeps(active);
    RedactAllRemoves(text, SortByLength(active), c);
  }

  /** Text without credentials is unchanged; in particular redacting twice is redacting once. */
  lemma {:induction false} RedactAllNothing(text: string, secrets: seq<string>)
    requires NonEmpty(secrets) && forall c :: c in secrets ==> !Occurs(c, text)
    ensures RedactAll(text, secrets) == text
    decreases |secrets|
  {
    if secrets != [] {
      ReplaceNothing(text, secrets[0], MARKER);
      RedactAllNothing(text, secrets[1..]);
    }
  }

  lemma RedactTextIsIdempotent(text: string, active: seq<string>)
    requires AllHarmless(active)
    ensures NonEmpty(active) && RedactText(RedactText(text, active), active) == RedactText(text, active)
  {
    SortIsSorted(active);
    SortKeeps(active);
    var secrets := SortByLength(active);
    forall c | c in secrets
      ensures !Occurs(c, RedactText(text, active))
    {
      RedactTextRemoves(text, active, c);
    }
    RedactAllNothing(RedactText(text, active), secrets);
  }

  // ----- nested values -----

  datatype Item = Item(key: Value, value: Value)

  datatype Value =
    | Str(text: string)
    | Exc(text: string)
    | Dict(items: seq<Item>)
    | List(elems: seq<Value>)
    | Tuple(elems: seq<Value>)
    | Atom(id: int)  // a number, a boolean, None and the like

  /** What Python takes as a dictionary key. */
  predicate Hashable(v: Value) {
    !v.List? && !v.Dict?
  }

  /** Assigning to a key of a dictionary: an existing key keeps its place. */
  function Assign(items: seq<Item>, key: Value, value: Value): seq<Item> {
    if items == [] then [Item(key, value)]
    else if items[0].key == key then [Item(key, value)] + items[1..]
    else [items[0]] + Assign(items[1..], key, value)
  }

  /** `redact_credentials`; `None` is the error for a key that can be no key any more. */
  function Redact(v: Value, active: seq<string>): Option<Value>
    requires NonEmpty(active)
    decreases v, 1
  {
    match v
    case Str(t) => Some(Str(RedactText(t, active)))
    case Exc(t) => Some(Str(RedactText(t, active)))
    case Atom(_) => Some(v)
    case List(es) => RedactElems(es, active)
    case Tuple(es) => RedactElems(es, active)
    case Dict(items) => RedactItems(items, active)
  }

  function RedactElems(es: seq<Value>, active: seq<string>): (r: Option<Value>)
    requires NonEmpty(active)
    ensures r.Some? ==> r.value.List? && |r.value.elems| == |es|
    ensures r.Some? ==> forall i :: 0 <= i < |es| ==> Redact(es[i], active) == Some(r.value.elems[i])
    decreases es, 0
  {
    if es == [] then Some(List([]))
    else
      var rest := RedactElems(es[..|es| - 1], active);
      var last := Redact(es[|es| - 1], active);
      if rest.None? || last.None? then None else Some(List(rest.value.elems + [last.value]))
  }

  function RedactItems(items: seq<Item>, active: seq<string>): (r: Option<Value>)
    requires NonEmpty(active)
    ensures r.Some? ==> r.value.Dict?
    decreases items, 0
  {
    if items == [] then Some(Dict([]))
    else
      var rest := RedactItems(items[..|items| - 1], active);
      var last := RedactItem(items[|items| - 1], active);
      if rest.None? || last.None? then None
      else Some(Dict(Assign(rest.value.items, last.value.key, last.value.value)))
  }

  function RedactItem(item: Item, active: seq<string>): Option<Item>
    requires NonEmpty(active)
    decreases item, 2
  {
    var key := Redact(item.key, active);
    var value := Redact(item.value, active);
    if key.None? || value.None? || !Hashable(key.value) then None else Some(Item(key.value, value.value))
  }

  /** The credential occurs in no key and no string, however deep. */
  predicate Clean(v: Value, c: string)
    decreases v, 1
  {
    match v
    case Str(t) => !Occurs(c, t)
    case Exc(t) => !Occurs(c, t)
    case Atom(_) => true
    case List(es) => forall e :: e in es ==> Clean(e, c)
    case Tuple(es) => forall e :: e in es ==> Clean(e, c)
    case Dict(items) => forall kv :: kv in items ==> CleanItem(kv, c)
  }

  predicate CleanItem(item: Item, c: string)
    decreases item, 2
  {
    Clean(item.key, c) && Clean(item.value, c)
  }

  lemma {:induction false} AssignIsClean(items: seq<Item>, key: Value, value: Value, c: string)
    requires (forall kv :: kv in items ==> CleanItem(kv, c)) && Clean(key, c) && Clean(value, c)
    ensures forall kv :: kv in Assign(items, key, value) ==> CleanItem(kv, c)
  {
    if items != [] && items[0].key != key {
      AssignIsClean(items[1..], key, value, c);
    }
  }

  /**
    Completeness, one credential at a time: an active credential that neither overlaps an end of the marker
    nor is part of it occurs in no key and no string of the redacted value, whatever the other credentials are.
   */
  lemma {:induction false} RedactIsComplete(v: Value, active: seq<string>, c: string)
    requires NonEmpty(active) && Harmless(c) && c in active
    ensures Redact(v, active).Some? ==> Clean(Redact(v, active).value, c)
    decreases v, 1
  {
    match v
    case Str(t) => RedactTextRemoves(t, active, c);
    case Exc(t) => RedactTextRemoves(t, active, c);
    case Atom(_) =>
    case List(es) => ElemsAreClean(es, active, c);
    case Tuple(es) => ElemsAreClean(es, active, c);
    case Dict(items) => ItemsAreClean(items, active, c);
  }

  lemma {:induction false} ElemsAreClean(es: seq<Value>, active: seq<string>, c: string)
    requires NonEmpty(active) && Harmless(c) && c in active
    ensures RedactElems(es, active).Some? ==> Clean(RedactElems(es, active).value, c)
    decreases es, 0
  {
    if es != [] {
      ElemsAreClean(es[..|es| - 1], active, c);
      RedactIsComplete(es[|es| - 1], active, c);
    }
  }

  lemma {:induction false} ItemsAreClean(items: seq<Item>, active: seq<string>, c: string)
    requires NonEmpty(active) && Harmless(c) && c in active
    ensures RedactItems(items, active).Some? ==> Clean(RedactItems(items, active).value, c)
    decreases items, 0
  {
    if items != [] {
      ItemsAreClean(items[..|items| - 1], active, c);
      ItemIsClean(items[|items| - 1], active, c);
      if RedactItems(items, active).Some? {
        var last := RedactItem(items[|items| - 1], active).value;
        AssignIsClean(RedactItems(items[..|items| - 1], active).value.items, last.key, last.value, c);
      }
    }
  }

  lemma {:induction false} ItemIsClean(item: Item, active: seq<string>, c: string)
    requires NonEmpty(active) && Harmless(c) && c in active
    ensures RedactItem(item, active).Some? ==> CleanItem(RedactItem(item, active).value, c)
    decreases item, 2
  {
    RedactIsComplete(item.key, active, c);
    RedactIsComplete(item.value, active, c);
  }

  /** No dictionary at any depth is keyed by a tuple, a list or a dictionary. */
  predicate PlainKeys(v: Value)
    decreases v, 1
  {
    match v
    case List(es) => forall e :: e in es ==> PlainKeys(e)
    case Tuple(es) => forall e :: e in es ==> PlainKeys(e)
    case Dict(items) => forall kv :: kv in items ==> PlainItem(kv)
    case _ => true
  }

  predicate PlainItem(item: Item)
    decreases item, 2
  {
    PlainKeys(item.key) && PlainKeys(item.value) && Hashable(item.key) && !item.key.Tuple?
  }

  /**
    Redaction succeeds exactly on values whose dictionary keys are no containers: a tuple key becomes a list and
    cannot be a key.
   */
  lemma {:induction false} RedactSucceedsIff(v: Value, active: seq<string>)
    requires NonEmpty(active)
    ensures Redact(v, active).Some? <==> PlainKeys(v)
    decreases v, 1
  {
    match v
    case List(es) => ElemsSucceedIff(es, active);
    case Tuple(es) => ElemsSucceedIff(es, active);
    case Dict(items) => ItemsSucceedIff(items, active);
    case _ =>
  }

  lemma {:induction false} ElemsSucceedIff(es: seq<Value>, active: seq<string>)
    requires NonEmpty(active)
    ensures RedactElems(es, active).Some? <==> forall e :: e in es ==> PlainKeys(e)
    decreases es, 0
  {
    if es != [] {
      ElemsSucceedIff(es[..|es| - 1], active);
      RedactSucceedsIff(es[|es| - 1], active);
      assert es == es[..|es| - 1] + [es[|es| - 1]];
    }
  }

  lemma {:induction false} ItemsSucceedIff(items: seq<Item>, active: seq<string>)
    requires NonEmpty(active)
    ensures RedactItems(items, active).Some? <==>
              forall kv :: kv in items ==> PlainItem(kv)
    decreases items, 0
  {
    if items != [] {
      ItemsSucceedIff(items[..|items| - 1], active);
      ItemSucceedsIff(items[|items| - 1], active);
      assert items == items[..|items| - 1] + [items[|items| - 1]];
    }
  }

  lemma {:induction false} ItemSucceedsIff(item: Item, active: seq<string>)
    requires NonEmpty(active)
    ensures RedactItem(item, active).Some? <==> PlainItem(item)
    decreases item, 2
  {
    RedactSucceedsIff(item.key, active);
    RedactSucceedsIff(item.value, active);
  }

  // ----- the active credentials of a request -----

  class CredentialContext {
    var active: seq<string>

    ghost predicate Valid()
      reads this
    {
      NonEmpty(active) && forall i, j :: 0 <= i < j < |active| ==> active[i] != active[j]
    }

    constructor ()
      ensures Valid() && active == []
    {
      active := [];
    }

    method Protect(value: string) returns (r: string)
      requires Valid()
      modifies this
      ensures Valid() && r == value
      ensures old(active) <= active && forall c :: c in active <==> c in old(active) || (c == value && value != "")
    {
      if value != "" && value !in active {
        active := active + [value];
      }
      return value;
    }
  }
}
