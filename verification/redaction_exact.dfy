/**
  Exactly which credentials exact-value redaction removes: whatever else is redacted beside them, alone, and
  for lists that overlap no end of the marker.
 */
module RedactionExact {
  import opened Wrappers
  import opened Redaction

  // ----- parts of the marker -----

  /** A replacement leaves a marker behind. */
  lemma {:induction false} ReplaceMarks(s: string, p: string)
    requires p != "" && Occurs(p, s)
    ensures Occurs(MARKER, Replace(s, p, MARKER))
    decreases |s|
  {
    var r := Replace(s, p, MARKER);
    if IsPrefix(p, s) {
      assert r[..|MARKER|] == MARKER;
      PrefixOccurs(MARKER, r);
    } else {
      var i: nat :| i <= |s| && OccursAt(p, s, i);
      assert s[1..][i - 1..i - 1 + |p|] == s[i..i + |p|];
      assert OccursAt(p, s[1..], i - 1);
      ReplaceMarks(s[1..], p);
      assert r[1..] == Replace(s[1..], p, MARKER);
      OccursInTail(MARKER, r, 1);
    }
  }

  lemma {:induction false} MarkerSurvivesAll(text: string, secrets: seq<string>)
    requires NonEmpty(secrets) && Occurs(MARKER, text)
    ensures Occurs(MARKER, RedactAll(text, secrets))
    decreases |secrets|
  {
    if secrets != [] {
      if Occurs(secrets[0], text) {
        ReplaceMarks(text, secrets[0]);
      } else {
        ReplaceNothing(text, secrets[0], MARKER);
      }
      MarkerSurvivesAll(Replace(text, secrets[0], MARKER), secrets[1..]);
    }
  }

  lemma LongerDoesNotOccur(d: string, c: string)
    requires d != c && |d| >= |c|
    ensures !Occurs(d, c)
  {
    forall i: nat | i <= |c|
      ensures !OccursAt(d, c, i)
    {
      assert c[0..|c|] == c;
    }
  }

  /** A text that is one of the credentials ends up holding the marker. */
  lemma {:induction false} CredentialBecomesMarker(c: string, secrets: seq<string>)
    requires NonEmpty(secrets) && LongestFirst(secrets) && c in secrets
    ensures Occurs(MARKER, RedactAll(c, secrets))
    decreases |secrets|
  {
    var d := secrets[0];
    if d == c {
      assert c[|c|..] == "" && Replace("", c, MARKER) == "";
      assert Replace(c, c, MARKER) == MARKER + "" == MARKER;
      PrefixOccurs(MARKER, MARKER);
      MarkerSurvivesAll(MARKER, secrets[1..]);
    } else {
      assert secrets == [d] + secrets[1..];
      var k :| 0 <= k < |secrets| && secrets[k] == c;
      assert |d| >= |c|;
      LongerDoesNotOccur(d, c);
      ReplaceNothing(c, d, MARKER);
      CredentialBecomesMarker(c, secrets[1..]);
    }
  }

  /** On every text, no active credential survives. */
  ghost predicate Complete(active: seq<string>)
    requires NonEmpty(active)
  {
    forall text: string, c: string :: c in active ==> !Occurs(c, RedactText(text, active))
  }

  /** A credential that is part of the marker survives somewhere, whatever the others are. */
  lemma PartOfMarkerSurvives(active: seq<string>, c: string)
    requires NonEmpty(active) && c in active && Occurs(c, MARKER)
    ensures !Complete(active)
  {
    SortIsSorted(active);
    SortKeeps(active);
    CredentialBecomesMarker(c, SortByLength(active));
    OccursWithin(c, MARKER, RedactText(c, active));
  }

  /**
    For credentials that overlap no end of the marker, redaction is complete exactly when none of them is
    part of it. Credentials without brackets are of this kind.
   */
  lemma CompleteExactlyWhenHarmless(active: seq<string>)
    requires NonEmpty(active) && AllOnlyInside(active)
    ensures Complete(active) <==> AllHarmless(active)
  {
    if AllHarmless(active) {
      forall text: string, c: string | c in active
        ensures !Occurs(c, RedactText(text, active))
      {
        RedactTextRemoves(text, active, c);
      }
    } else {
      var i :| 0 <= i < |active| && !Harmless(active[i]);
      PartOfMarkerSurvives(active, active[i]);
    }
  }

  // ----- one credential in any company -----

  /** Whatever the other credentials are and whatever the text is, the credential does not survive. */
  ghost predicate SafeInAnyCompany(c: string) {
    forall active: seq<string>, text: string ::
      NonEmpty(active) && c in active ==> !Occurs(c, RedactText(text, active))
  }

  /** What of the credential lies before the marker when it is laid over it from position `i` on. */
  function Before(c: string, i: int): string
    requires -|c| <= i
  {
    if i < 0 then c[..-i] else ""
  }

  /** What of the credential lies behind the marker. */
  function Behind(c: string, i: int): string
    requires i <= |MARKER|
  {
    if i + |c| > |MARKER| then c[|MARKER| - i..] else ""
  }

  lemma PartsAround(c: string, m: string, a: string, b: string, i: int)
    requires forall k :: 0 <= k < |c| && 0 <= i + k < |m| ==> c[k] == m[i + k]
    requires -|c| < i < |m|
    requires a == if i < 0 then c[..-i] else ""
    requires b == if i + |c| > |m| then c[|m| - i..] else ""
    ensures OccursAt(c, a + m + b, if i < 0 then 0 else i)
  {
    var r := a + m + b;
    var at: nat := if i < 0 then 0 else i;
    forall k | 0 <= k < |c|
      ensures r[at + k] == c[k]
    {
    }
    assert r[at..at + |c|] == c;
  }

  /** Put around a marker, the two parts make up the credential again. */
  lemma PartsMakeTheCredential(c: string, i: int)
    requires -|c| < i < |MARKER| && Meets(c, i)
    ensures Occurs(c, Before(c, i) + MARKER + Behind(c, i))
  {
    PartsAround(c, MARKER, Before(c, i), Behind(c, i), i);
  }

  lemma {:induction false} ReplaceChar(a: string, x: char, b: string, mark: string)
    requires x !in a && x !in b
    ensures Replace(a + [x] + b, [x], mark) == a + mark + b
    decreases |a|
  {
    var s := a + [x] + b;
    if a == [] {
      assert s == [x] + b;
      forall i: nat
        ensures !OccursAt([x], b, i)
      {
        if i < |b| {
          assert b[i..i + 1][0] == b[i];
        }
      }
      ReplaceNothing(b, [x], mark);
      assert IsPrefix([x], s) && s[1..] == b;
      assert a + mark == mark;
    } else {
      assert s[..1][0] == a[0];
      assert s[1..] == a[1..] + [x] + b;
      ReplaceChar(a[1..], x, b, mark);
      assert [a[0]] + (a[1..] + mark + b) == a + mark + b;
    }
  }

  lemma AbsentAround(c: string, a: string, x: char, b: string)
    requires x !in c && |a| < |c| && |b| < |c|
    ensures !Occurs(c, a + [x] + b)
  {
    var s := a + [x] + b;
    forall i: nat
      ensures !OccursAt(c, s, i)
    {
      if i + |c| <= |s| {
        assert s[i..i + |c|][|a| - i] == s[|a|] == x;
      }
    }
  }

  lemma SortTwo(c: string, x: char)
    requires |c| > 1
    ensures SortByLength([c, [x]]) == [c, [x]]
  {
    assert [c, [x]][1..] == [[x]];
    assert SortByLength([[x]]) == [[x]] by {
      assert [[x]][1..] == [];
    }
  }

  lemma RedactTwo(text: string, c: string, d: string)
    requires c != "" && d != "" && SortByLength([c, d]) == [c, d]
    ensures RedactText(text, [c, d]) == Replace(Replace(text, c, MARKER), d, MARKER)
  {
    assert [c, d][1..] == [d] && [d][1..] == [];
    assert RedactAll(text, [c, d]) == RedactAll(Replace(text, c, MARKER), [d]);
  }

  /** A credential over an end of the marker comes back beside one that is replaced after it. */
  lemma OverlapComesBack(c: string, x: char, i: int)
    requires -|c| < i < |MARKER| && Meets(c, i) && !(0 <= i <= |MARKER| - |c|)
    requires x !in c && x !in MARKER
    ensures NonEmpty([c, [x]])
    ensures Occurs(c, RedactText(Before(c, i) + [x] + Behind(c, i), [c, [x]]))
  {
    var a, b := Before(c, i), Behind(c, i);
    var text := a + [x] + b;
    SortTwo(c, x);
    AbsentAround(c, a, x, b);
    ReplaceNothing(text, c, MARKER);
    ReplaceChar(a, x, b, MARKER);
    RedactTwo(text, c, [x]);
    PartsMakeTheCredential(c, i);
  }

  /**
    The exact condition, for any credential that leaves some character outside itself and the marker: it is
    removed from every text in every company exactly when it neither overlaps an end of the marker nor is
    part of it.
   */
  lemma SafeInAnyCompanyIff(c: string, x: char)
    requires c != "" && x !in c && x !in MARKER
    ensures SafeInAnyCompany(c) <==> Harmless(c)
  {
    if Harmless(c) {
      forall active: seq<string>, text: string | NonEmpty(active) && c in active
        ensures !Occurs(c, RedactText(text, active))
      {
        RedactTextRemoves(text, active, c);
      }
    } else if Occurs(c, MARKER) {
      PartOfMarkerSurvives([c], c);
    } else {
      var i: int :| -|c| < i < |MARKER| && Meets(c, i) && !(0 <= i <= |MARKER| - |c|);
      OverlapComesBack(c, x, i);
    }
  }

  // ----- one credential alone -----

  /** The first place where the credential occurs. */
  ghost predicate FirstAt(p: string, s: string, n: nat) {
    OccursAt(p, s, n) && forall j: nat :: j < n ==> !OccursAt(p, s, j)
  }

  lemma FirstExists(p: string, s: string, i: nat)
    requires OccursAt(p, s, i)
    ensures exists n: nat :: n <= i && FirstAt(p, s, n)
  {
    if j: nat :| j < i && OccursAt(p, s, j) {
      FirstExists(p, s, j);
    } else {
      assert FirstAt(p, s, i);
    }
  }

  lemma FirstInTail(a: string, p: string, b: string)
    requires a != "" && FirstAt(p, a + p + b, |a|)
    ensures FirstAt(p, a[1..] + p + b, |a| - 1)
  {
    var s, tail := a + p + b, a[1..] + p + b;
    assert tail == s[1..];
    assert tail[|a| - 1..|a| - 1 + |p|] == p;
    forall j: nat | j < |a| - 1
      ensures !OccursAt(p, tail, j)
    {
      assert !OccursAt(p, s, j + 1);
      assert tail[j..j + |p|] == s[j + 1..j + 1 + |p|];
    }
  }

  lemma ReplaceHit(p: string, b: string, mark: string)
    requires p != ""
    ensures Replace(p + b, p, mark) == mark + Replace(b, p, mark)
  {
    assert (p + b)[|p|..] == b;
  }

  lemma ReplaceMiss(x: char, s: string, p: string, mark: string)
    requires 0 < |p| <= 1 + |s| && !OccursAt(p, [x] + s, 0)
    ensures Replace([x] + s, p, mark) == [x] + Replace(s, p, mark)
  {
    assert ([x] + s)[1..] == s;
  }

  lemma PushChar(x: char, a: string, mark: string, b: string)
    ensures [x] + (a + mark + b) == [x] + a + mark + b
  {
  }

  /** The text is copied up to the first match. */
  lemma {:induction false} ReplaceAtFirst(a: string, p: string, b: string, mark: string)
    requires p != "" && FirstAt(p, a + p + b, |a|)
    ensures Replace(a + p + b, p, mark) == a + mark + Replace(b, p, mark)
    decreases |a|
  {
    if a == "" {
      assert a + p == p && a + mark == mark;
      ReplaceHit(p, b, mark);
    } else {
      assert !OccursAt(p, a + p + b, 0);
      FirstInTail(a, p, b);
      ReplaceAtFirst(a[1..], p, b, mark);
      assert a == [a[0]] + a[1..];
      PushChar(a[0], a[1..], p, b);
      PushChar(a[0], a[1..], mark, Replace(b, p, mark));
      ReplaceMiss(a[0], a[1..] + p + b, p, mark);
    }
  }

  /** Doubling the first `d` characters makes an earlier match. */
  ghost predicate Shadowed(c: string, d: nat)
    requires d <= |c|
  {
    exists j: nat :: j < d && OccursAt(c, c[..d] + c, j)
  }

  /** No end of the credential lies over the right end of the marker. */
  predicate OverNoRightEnd(c: string) {
    forall i: int :: 0 <= i < |MARKER| < i + |c| ==> !Meets(c, i)
  }

  /** Where a part of the credential stands before the marker, replacing starts earlier. */
  ghost predicate LeftEndsShadowed(c: string) {
    forall d: nat :: 0 < d < |c| && Meets(c, 0 - d) ==> Shadowed(c, d)
  }

  ghost predicate SafeAlone(c: string) {
    !Occurs(c, MARKER) && OverNoRightEnd(c) && LeftEndsShadowed(c)
  }

  lemma RedactTextOfOne(text: string, c: string)
    requires c != ""
    ensures NonEmpty([c]) && RedactText(text, [c]) == Replace(text, c, MARKER)
  {
    assert [c][1..] == [];
    assert SortByLength([c]) == [c] by {
      assert SortByLength([]) == [];
    }
    assert RedactAll(text, [c]) == RedactAll(Replace(text, c, MARKER), []);
  }

  /** What begins the result began the text, if every overlap with the left end is shadowed. */
  lemma PrefixNeedsPrefix(s: string, c: string)
    requires c != "" && SafeAlone(c) && IsPrefix(c, Replace(s, c, MARKER))
    ensures IsPrefix(c, s)
  {
    var r := Replace(s, c, MARKER);
    if Occurs(c, s) {
      var i: nat :| i <= |s| && OccursAt(c, s, i);
      FirstExists(c, s, i);
      var n: nat :| n <= i && FirstAt(c, s, n);
      var rest := Replace(s[n + |c|..], c, MARKER);
      assert s[..n] + c + s[n + |c|..] == s;
      ReplaceAtFirst(s[..n], c, s[n + |c|..], MARKER);
      assert r == s[..n] + MARKER + rest;
      if n >= |c| {
        assert r[..|c|] == s[..|c|];
      } else if n > 0 {
        NoShadowBeforeFirst(s, c, n, rest);
      }
    } else {
      ReplaceNothing(s, c, MARKER);
    }
  }

  lemma SliceOfPrefix(s: string, m: nat, i: nat, j: nat)
    requires i <= j <= m <= |s|
    ensures s[..m][i..j] == s[i..j]
  {
  }

  /** A first match at `n` leaves the credential over the left end only where it is not shadowed. */
  lemma NoShadowBeforeFirst(s: string, c: string, n: nat, rest: string)
    requires 0 < n < |c| && FirstAt(c, s, n) && IsPrefix(c, s[..n] + MARKER + rest)
    ensures Meets(c, 0 - n) && !Shadowed(c, n)
  {
    var r := s[..n] + MARKER + rest;
    forall k | 0 <= k < |c| && 0 <= k - n < |MARKER|
      ensures c[k] == MARKER[k - n]
    {
      assert r[..|c|][k] == r[k];
    }
    assert c[..n] == s[..n] by {
      assert c[..n] == r[..|c|][..n] == r[..n];
    }
    var twice := c[..n] + c;
    assert twice == s[..n + |c|] by {
      assert s[..n + |c|] == s[..n] + s[n..n + |c|];
    }
    forall j: nat | j < n
      ensures !OccursAt(c, twice, j)
    {
      assert !OccursAt(c, s, j);
      SliceOfPrefix(s, n + |c|, j, j + |c|);
    }
  }

  /** Such a credential is gone from every text. */
  lemma {:induction false} SafeAloneRemoves(s: string, c: string)
    requires c != "" && SafeAlone(c)
    ensures !Occurs(c, Replace(s, c, MARKER))
    decreases |s|
  {
    var r := Replace(s, c, MARKER);
    if Occurs(c, r) {
      var i: nat :| i <= |r| && OccursAt(c, r, i);
      if |s| >= |c| {
        if IsPrefix(c, s) {
          var tail := Replace(s[|c|..], c, MARKER);
          assert r == MARKER + tail;
          SafeAloneRemoves(s[|c|..], c);
          if i < |MARKER| {
            OverlapIsRight(c, tail, i);
          } else {
            OccursAfter(c, MARKER, tail, i);
          }
        } else {
          var tail := Replace(s[1..], c, MARKER);
          assert r == [s[0]] + tail;
          SafeAloneRemoves(s[1..], c);
          if i == 0 {
            PrefixNeedsPrefix(s, c);
          } else {
            OccursAfter(c, [s[0]], tail, i);
          }
        }
      }
    }
  }

  /** What starts inside the marker is part of it or runs over its right end. */
  lemma OverlapIsRight(c: string, rest: string, i: nat)
    requires OccursAt(c, MARKER + rest, i) && i < |MARKER|
    ensures Occurs(c, MARKER) || !OverNoRightEnd(c)
  {
    MeetsWhereOccurs(c, rest, i);
    if i + |c| <= |MARKER| {
      assert MARKER[i..i + |c|] == (MARKER + rest)[i..i + |c|];
      assert OccursAt(c, MARKER, i);
    }
  }

  lemma ReplaceShort(s: string, p: string, mark: string)
    requires |s| < |p|
    ensures Replace(s, p, mark) == s
  {
  }

  /** Over the right end: the credential, followed by what of it lies behind the marker. */
  lemma RightEndComesBack(c: string, i: nat)
    requires i < |MARKER| < i + |c| && Meets(c, i)
    ensures Occurs(c, Replace(c + Behind(c, i), c, MARKER))
  {
    var b := Behind(c, i);
    ReplaceHit(c, b, MARKER);
    ReplaceShort(b, c, MARKER);
    PartsMakeTheCredential(c, i);
    assert Before(c, i) + MARKER == MARKER;
  }

  lemma FirstDoubled(c: string, d: nat, b: string)
    requires d < |c| && !Shadowed(c, d)
    ensures FirstAt(c, c[..d] + c + b, d)
  {
    var twice := c[..d] + c;
    var text := twice + b;
    assert text[d..d + |c|] == c;
    forall j: nat | j < d
      ensures !OccursAt(c, text, j)
    {
      assert !OccursAt(c, twice, j);
      assert text[j..j + |c|] == twice[j..j + |c|];
    }
  }

  lemma ReplaceDoubled(c: string, d: nat, b: string, mark: string)
    requires d < |c| && |b| < |c| && !Shadowed(c, d)
    ensures Replace(c[..d] + c + b, c, mark) == c[..d] + mark + b
  {
    FirstDoubled(c, d, b);
    ReplaceAtFirst(c[..d], c, b, mark);
    ReplaceShort(b, c, mark);
  }

  /** Over the left end, unshadowed: the part before the marker, then the credential, then what lies behind. */
  lemma LeftEndComesBack(c: string, d: nat)
    requires 0 < d < |c| && Meets(c, 0 - d) && !Shadowed(c, d)
    ensures Occurs(c, Replace(c[..d] + c + Behind(c, 0 - d), c, MARKER))
  {
    var i: int := 0 - d;
    ReplaceDoubled(c, d, Behind(c, i), MARKER);
    PartsMakeTheCredential(c, i);
    assert Before(c, i) == c[..d];
  }

  /**
    The exact condition for a credential that is redacted alone: it is part of no marker, it overlaps no
    right end of it, and wherever it overlaps the left end the doubled beginning is matched earlier.
   */
  lemma CompleteAloneIff(c: string)
    requires c != ""
    ensures NonEmpty([c]) && (Complete([c]) <==> SafeAlone(c))
  {
    if SafeAlone(c) {
      forall text: string, q: string | q in [c]
        ensures !Occurs(q, RedactText(text, [c]))
      {
        SafeAloneRemoves(text, c);
        RedactTextOfOne(text, c);
      }
    } else if Occurs(c, MARKER) {
      PartOfMarkerSurvives([c], c);
    } else {
      var text := ComesBackFrom(c);
      RedactTextOfOne(text, c);
      assert c in [c];
    }
  }

  /** A text that still holds the credential after its replacement. */
  lemma ComesBackFrom(c: string) returns (text: string)
    requires c != "" && !(OverNoRightEnd(c) && LeftEndsShadowed(c))
    ensures Occurs(c, Replace(text, c, MARKER))
  {
    if !OverNoRightEnd(c) {
      var i: nat :| i < |MARKER| < i + |c| && Meets(c, i);
      text := c + Behind(c, i);
      RightEndComesBack(c, i);
    } else {
      var d: nat :| 0 < d < |c| && Meets(c, 0 - d) && !Shadowed(c, d);
      text := c[..d] + c + Behind(c, 0 - d);
      LeftEndComesBack(c, d);
    }
  }

  /** With a bracket in it a credential can come back: the marker's own bracket completes it. */
  lemma BracketCanComeBack()
    ensures Occurs("]x", RedactText("]xx", ["]x"]))
  {
    var c := "]x";
    assert SortByLength([c]) == [c] by {
      assert SortByLength([]) == [];
    }
    var t := "]xx";
    assert IsPrefix(c, t) && t[2..] == "x";
    assert Replace("x", c, MARKER) == "x";
    var r := Replace(t, c, MARKER);
    assert r == MARKER + "x";
    assert RedactAll(t, [c]) == RedactAll(r, []) == r;
    assert r[16] == ']' && r[17] == 'x' && |r| == 18;
    assert r[16..18] == c;
    assert OccursAt(c, r, 16);
  }
}
