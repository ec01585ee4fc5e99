/**
  Re-encryption of the whole store by a cursor scan, while writers that use the current key go on
  working between any two of its steps.
 */
module ByokMigrate {
  import opened Wrappers
  import opened Byok
  import opened ByokProtocol
  import opened ByokStorage
  import opened ByokCalls
  import opened ByokTruth

  /** The record opens in its slot and is sealed under the manager's current key. */
  predicate CurrentRaw(m: Manager, key: SlotName, raw: Raw) {
    key.Slot? && Open(m, raw, key.tenant, key.provider).Ok?
      && Open(m, raw, key.tenant, key.provider).value.kid == m.keyId
  }

  // ----- records of which something is to hold -----

  type Test = (SlotName, Raw) -> bool

  predicate AllPass(test: Test, records: Records) {
    forall k :: k in records ==> test(k, records[k])
  }

  /** From `a` to `b` nothing was deleted, and what was written passes. */
  predicate WritesPass(test: Test, a: Records, b: Records) {
    && a.Keys <= b.Keys
    && forall k :: k in b ==> (k in a && a[k] == b[k]) || test(k, b[k])
  }

  /** Every record whose name sorts among the first `n` passes. */
  ghost predicate PrefixPasses(test: Test, records: Records, before: Order, n: int) {
    forall k :: k in records && Rank(records.Keys, before, k) < n ==> test(k, records[k])
  }

  predicate PagePasses(test: Test, records: Records, page: seq<SlotName>) {
    forall i :: 0 <= i < |page| && page[i] in records ==> test(page[i], records[page[i]])
  }

  lemma WritesCompose(test: Test, a: Records, b: Records, c: Records)
    requires WritesPass(test, a, b) && WritesPass(test, b, c)
    ensures WritesPass(test, a, c)
  {
  }

  lemma PageSurvives(test: Test, a: Records, b: Records, page: seq<SlotName>)
    requires PagePasses(test, a, page) && WritesPass(test, a, b)
    ensures PagePasses(test, b, page)
  {
  }

  lemma PageGrows(test: Test, a: Records, b: Records, page: seq<SlotName>, j: nat)
    requires j < |page| && PagePasses(test, a, page[..j]) && WritesPass(test, a, b) && PagePasses(test, b, [page[j]])
    ensures PagePasses(test, b, page[..j + 1])
  {
    PageSurvives(test, a, b, page[..j]);
    assert [page[j]][0] == page[j];
    var longer := page[..j + 1];
    forall i | 0 <= i < |longer| && longer[i] in b
      ensures test(longer[i], b[longer[i]])
    {
      assert i < j ==> page[..j][i] == longer[i];
    }
  }

  /** Inserts during a pass are harmless: they only push unvisited names further back. */
  lemma PrefixSurvives(test: Test, a: Records, b: Records, before: Order, n: int)
    requires PrefixPasses(test, a, before, n) && WritesPass(test, a, b)
    ensures PrefixPasses(test, b, before, n)
  {
    forall k | k in b && Rank(b.Keys, before, k) < n
      ensures test(k, b[k])
    {
      if k in a && a[k] == b[k] {
        RankGrows(a.Keys, b.Keys, before, k);
      }
    }
  }

  /** A name of the page, or before it, passes once the page does. */
  lemma PrefixOrPage(test: Test, a: Records, b: Records, before: Order, page: seq<SlotName>, from: nat, to: nat,
          k: SlotName)
    requires PrefixPasses(test, a, before, from) && IsPage(page, a.Keys, before, from, to) && PagePasses(test, b, page)
    requires k in a && k in b && a[k] == b[k] && Rank(a.Keys, before, k) < to
    ensures test(k, b[k])
  {
    if Rank(a.Keys, before, k) >= from {
      assert k in page;
      var i :| 0 <= i < |page| && page[i] == k;
    }
  }

  /** A page that has been dealt with extends the prefix; one that reaches the end of the names leaves nothing. */
  lemma CleanPage(test: Test, a: Records, b: Records, before: Order, page: seq<SlotName>, from: nat, to: nat)
    requires StrictTotal(before) && PrefixPasses(test, a, before, from) && WritesPass(test, a, b)
    requires IsPage(page, a.Keys, before, from, to) && PagePasses(test, b, page)
    ensures PrefixPasses(test, b, before, to)
    ensures |a| <= to ==> AllPass(test, b)
  {
    forall k | k in b && (Rank(b.Keys, before, k) < to || |a| <= to)
      ensures test(k, b[k])
    {
      if k in a && a[k] == b[k] {
        RankGrows(a.Keys, b.Keys, before, k);
        RankInRange(a.Keys, before, k);
        assert |a| == |a.Keys|;
        PrefixOrPage(test, a, b, before, page, from, to, k);
      }
    }
  }

  /** The test of this migration. */
  function Current(m: Manager): Test {
    (key, raw) => CurrentRaw(m, key, raw)
  }

  // ----- one record -----

  /** Re-encrypting changes the key and the revision and nothing that was sealed. */
  lemma ReencryptKeepsContent(m: Manager, key: SlotName, prior: Raw, inp: Input)
    requires m.WellConfigured() && Decide(m, Reencrypt(key), Some(prior), false, inp).Put?
    ensures var value := Decide(m, Reencrypt(key), Some(prior), false, inp).value;
            && value.Some? && CurrentRaw(m, key, value.value)
            && Open(m, prior, key.tenant, key.provider).Ok?
            && var before := Open(m, prior, key.tenant, key.provider).value;
               Open(m, value.value, key.tenant, key.provider) == Ok(Opened(before.record, before.revision + 1, m.keyId))
  {
    var claim := Claimed(prior).value;
    var before := Open(m, prior, claim.0, claim.1).value;
    OpenIsContent(m, prior, claim.0, claim.1);
    SealThenOpen(m, m, before.record, claim.0, claim.1, claim.0, claim.1, before.revision + 1, inp.nonce);
  }

  /**
    Retiring the previous keys is safe once every record is current: the manager that is left opens
    every slot exactly as before.
   */
  lemma RetirementIsSafe(m: Manager, records: Records, key: SlotName)
    requires m.WellConfigured() && AllPass(Current(m), records) && key in records
    ensures m.OnlyCurrent().WellConfigured()
    ensures Open(m.OnlyCurrent(), records[key], key.tenant, key.provider)
         == Open(m, records[key], key.tenant, key.provider)
    ensures Open(m.OnlyCurrent(), records[key], key.tenant, key.provider).Ok?
  {
  }

  // ----- what a pass leaves of every record -----

  /** Whether one text may stand for another in a slot. */
  type Same = (SlotName, Raw, Raw) -> bool

  ghost predicate Preorder(same: Same) {
    (forall k, x :: same(k, x, x)) && (forall k, x, y, z :: same(k, x, y) && same(k, y, z) ==> same(k, x, z))
  }

  /** The same slots with, for each, a text that may stand for the first one. */
  predicate Keeps(same: Same, a: Records, b: Records) {
    a.Keys == b.Keys && forall k :: k in a ==> same(k, a[k], b[k])
  }

  /** What others make of the store at the `n`-th wait of the migration. */
  type Others = (nat, Records) -> Records

  /**
    From `a` to `b` through waits at which others found the stores `ws`: in between, every record is kept.
    So only others ever change a record.
   */
  predicate Chain(same: Same, others: Others, n: nat, a: Records, ws: seq<Records>, b: Records)
    decreases |ws|
  {
    if ws == [] then Keeps(same, a, b)
    else
      var last := |ws| - 1;
      Chain(same, others, n, a, ws[..last], ws[last]) && Keeps(same, others(n + last, ws[last]), b)
  }

  lemma ChainKeeps(same: Same, others: Others, n: nat, a: Records, ws: seq<Records>, b: Records, c: Records)
    requires Preorder(same) && Chain(same, others, n, a, ws, b) && Keeps(same, b, c)
    ensures Chain(same, others, n, a, ws, c)
  {
  }

  lemma {:induction false} ChainAppend(same: Same, others: Others, n: nat, a: Records, ws: seq<Records>, b: Records,
                                       vs: seq<Records>, c: Records)
    requires Preorder(same) && Chain(same, others, n, a, ws, b) && Chain(same, others, n + |ws|, b, vs, c)
    ensures Chain(same, others, n, a, ws + vs, c)
    decreases |vs|
  {
    if vs == [] {
      assert ws + vs == ws;
      ChainKeeps(same, others, n, a, ws, b, c);
    } else {
      var last := |vs| - 1;
      ChainAppend(same, others, n, a, ws, b, vs[..last], vs[last]);
      assert (ws + vs)[..|ws| + last] == ws + vs[..last];
    }
  }

  lemma ChainWait(same: Same, others: Others, n: nat, a: Records, ws: seq<Records>, b: Records)
    requires Preorder(same) && Chain(same, others, n, a, ws, b)
    ensures Chain(same, others, n, a, ws + [b], others(n + |ws|, b))
  {
    assert (ws + [b])[..|ws|] == ws;
  }

  lemma ChainNone(same: Same, others: Others, n: nat, a: Records)
    requires Preorder(same)
    ensures Chain(same, others, n, a, [], a)
  {
  }

  /** At none of these waits do others touch the slot. */
  predicate LeftAlone(others: Others, n: nat, ws: seq<Records>, k: SlotName) {
    forall i :: 0 <= i < |ws| ==> Lookup(others(n + i, ws[i]), k) == Lookup(ws[i], k)
  }

  /** A slot that others leave alone still holds its record. */
  lemma {:induction false} LeftAloneIsKept(same: Same, others: Others, n: nat, a: Records, ws: seq<Records>,
          b: Records, k: SlotName)
    requires Preorder(same) && Chain(same, others, n, a, ws, b) && LeftAlone(others, n, ws, k) && k in a
    ensures k in b && same(k, a[k], b[k])
    decreases |ws|
  {
    if ws != [] {
      var last := |ws| - 1;
      var w := ws[last];
      forall i | 0 <= i < last
        ensures Lookup(others(n + i, ws[..last][i]), k) == Lookup(ws[..last][i], k)
      {
        assert ws[..last][i] == ws[i];
      }
      LeftAloneIsKept(same, others, n, a, ws[..last], w, k);
      assert Lookup(others(n + last, w), k) == Lookup(w, k);
    }
  }

  /** The text is the same, or both open to the same record and the second was sealed no earlier. */
  predicate SameRecord(m: Manager, key: SlotName, x: Raw, y: Raw) {
    x == y || (key.Slot? && SameOpened(Open(m, x, key.tenant, key.provider), Open(m, y, key.tenant, key.provider)))
  }

  predicate SameOpened(x: Result<Opened, ByokError>, y: Result<Opened, ByokError>) {
    x.Ok? && y.Ok? && x.value.record == y.value.record && x.value.revision <= y.value.revision
  }

  function Kept(m: Manager): Same {
    (key, x, y) => SameRecord(m, key, x, y)
  }

  lemma SameRecordTransitive(m: Manager, k: SlotName, x: Raw, y: Raw, z: Raw)
    requires SameRecord(m, k, x, y) && SameRecord(m, k, y, z)
    ensures SameRecord(m, k, x, z)
  {
  }

  lemma KeptIsPreorder(m: Manager)
    ensures Preorder(Kept(m))
  {
    forall k, x, y, z | SameRecord(m, k, x, y) && SameRecord(m, k, y, z)
      ensures SameRecord(m, k, x, z)
    {
      SameRecordTransitive(m, k, x, y, z);
    }
  }

  /** The manager that has retired every previous key opens the slot to the record it held before. */
  predicate OpensAsBefore(m: Manager, key: SlotName, before: Raw, after: Raw)
    requires m.WellConfigured()
  {
    key.Slot?
      && SameOpened(Open(m, before, key.tenant, key.provider), Open(m.OnlyCurrent(), after, key.tenant, key.provider))
  }

  lemma RetiredManagerOpensAsBefore(m: Manager, key: SlotName, before: Raw, records: Records)
    requires m.WellConfigured() && AllPass(Current(m), records) && key in records
         && SameRecord(m, key, before, records[key])
    ensures OpensAsBefore(m, key, before, records[key])
  {
    RetirementIsSafe(m, records, key);
  }

  /** Every slot that others leave alone from `a` to `b` opens without the previous keys to the record it held. */
  ghost predicate RetirementLosesNothing(m: Manager, others: Others, n: nat, a: Records, ws: seq<Records>, b: Records)
    requires m.WellConfigured()
  {
    forall k :: k in a && LeftAlone(others, n, ws, k) ==> k in b && OpensAsBefore(m, k, a[k], b[k])
  }

  lemma AfterCleanPass(m: Manager, others: Others, n: nat, a: Records, ws: seq<Records>, end: nat, b: Records)
    requires m.WellConfigured() && Progress(m, others, n, a, ws, end, b) && AllPass(Current(m), b)
    ensures RetirementLosesNothing(m, others, n, a, ws, b)
  {
    KeptIsPreorder(m);
    forall k | k in a && LeftAlone(others, n, ws, k)
      ensures k in b && OpensAsBefore(m, k, a[k], b[k])
    {
      LeftAloneIsKept(Kept(m), others, n, a, ws, b, k);
      RetiredManagerOpensAsBefore(m, k, a[k], b);
    }
  }

  /** What has happened since the store was `a` and `n` waits were over, now that it is `b` and `end` waits are. */
  predicate Progress(m: Manager, others: Others, n: nat, a: Records, ws: seq<Records>, end: nat, b: Records) {
    end == n + |ws| && WritesPass(Current(m), a, b) && Chain(Kept(m), others, n, a, ws, b)
  }

  lemma NoProgress(m: Manager, others: Others, n: nat, a: Records)
    ensures Progress(m, others, n, a, [], n, a)
  {
    KeptIsPreorder(m);
    ChainNone(Kept(m), others, n, a);
  }

  lemma MoreProgress(m: Manager, others: Others, n: nat, a: Records, ws: seq<Records>, mid: nat, b: Records,
                     vs: seq<Records>, end: nat, c: Records)
    requires Progress(m, others, n, a, ws, mid, b) && Progress(m, others, mid, b, vs, end, c)
    ensures Progress(m, others, n, a, ws + vs, end, c)
  {
    KeptIsPreorder(m);
    ChainAppend(Kept(m), others, n, a, ws, b, vs, c);
    WritesCompose(Current(m), a, b, c);
  }

  lemma WaitIsProgress(m: Manager, others: Others, n: nat, a: Records)
    requires WritesPass(Current(m), a, others(n, a))
    ensures Progress(m, others, n, a, [a], n + 1, others(n, a))
  {
    KeptIsPreorder(m);
    ChainNone(Kept(m), others, n, a);
    ChainWait(Kept(m), others, n, a, [], a);
    assert [] + [a] == [a];
  }

  // ----- one record among others -----

  /** What the migration decides about a record it has read. */
  function ReencryptDecision(m: Manager, key: SlotName, prior: Option<Raw>, inp: Input): Decision
    requires m.WellConfigured()
  {
    Decide(m, Reencrypt(key), prior, false, inp)
  }

  /**
    How dealing with one record ends: the store and the result, when others left `x` for the read and `y` for the
    write.
   */
  function ReencryptEnding(m: Manager, key: SlotName, inp: Input, x: Records, y: Records)
    : (Records, Result<Answer, ByokError>)
    requires m.WellConfigured()
  {
    match ReencryptDecision(m, key, Lookup(x, key), inp)
    case Reject(e) => (x, Err(e))
    case Finish(a) => (x, Ok(a))
    case Put(value, a) => Swap(y, key, Lookup(x, key), value, a)
  }

  /** It is the ending of the protocol's operation. */
  lemma ReencryptIsACall(m: Manager, key: SlotName, inp: Input, found: Waits, start: Records)
    requires m.WellConfigured()
    ensures Outcome(m, Reencrypt(key), found, inp, start) == ReencryptEnding(m, key, inp, found.atRead, found.atCommit)
  {
  }

  /** A result that is no error comes from a current record, or from none, and a write is a migration. */
  lemma ReencryptAnswers(m: Manager, key: SlotName, prior: Option<Raw>, inp: Input)
    requires m.WellConfigured()
    ensures match ReencryptDecision(m, key, prior, inp)
            case Reject(_) => true
            case Finish(a) => a != Migrated && (prior.Some? ==> CurrentRaw(m, key, prior.value))
            case Put(value, a) => a == Migrated && prior.Some? && value.Some? && CurrentRaw(m, key, value.value)
                                  && SameRecord(m, key, prior.value, value.value)
  {
    if prior.Some? && ReencryptDecision(m, key, prior, inp).Put? {
      ReencryptKeepsContent(m, key, prior.value, inp);
    }
  }

  /** The waits of dealing with one record, and that every record is kept between them. */
  lemma ReencryptChain(m: Manager, others: Others, n: nat, a: Records, key: SlotName, inp: Input)
    returns (ws: seq<Records>)
    requires m.WellConfigured()
    ensures var x := others(n, a);
            && |ws| == (if ReencryptDecision(m, key, Lookup(x, key), inp).Put? then 2 else 1)
            && Chain(Kept(m), others, n, a, ws, ReencryptEnding(m, key, inp, x, others(n + 1, x)).0)
  {
    var x := others(n, a);
    var y := others(n + 1, x);
    KeptIsPreorder(m);
    ChainNone(Kept(m), others, n, a);
    ChainWait(Kept(m), others, n, a, [], a);
    assert [] + [a] == [a];
    ws := [a];
    ReencryptAnswers(m, key, Lookup(x, key), inp);
    var d := ReencryptDecision(m, key, Lookup(x, key), inp);
    if d.Put? {
      ChainWait(Kept(m), others, n, a, [a], x);
      ws := [a] + [x];
      if Lookup(y, key) == Lookup(x, key) {
        KeepsPut(Kept(m), y, key, d.value.value);
        ChainKeeps(Kept(m), others, n, a, ws, y, y[key := d.value.value]);
      }
    }
  }

  /**
    Dealing with one record deletes nothing, writes only current texts, and leaves a listed record current unless
    it failed.
   */
  lemma ReencryptPasses(m: Manager, universe: set<SlotName>, a: Records, x: Records, y: Records, key: SlotName,
          inp: Input)
    requires m.WellConfigured() && WritesPass(Current(m), a, x) && WritesPass(Current(m), x, y)
    requires x.Keys <= universe && y.Keys <= universe
    ensures var (b, r) := ReencryptEnding(m, key, inp, x, y);
            && WritesPass(Current(m), a, b) && b.Keys <= universe
            && (r == Ok(Migrated)
              <==> ReencryptDecision(m, key, Lookup(x, key), inp).Put? && Lookup(y, key) == Lookup(x, key))
            && (r.Ok? && key in a ==> PagePasses(Current(m), b, [key]))
  {
    ReencryptAnswers(m, key, Lookup(x, key), inp);
    var d := ReencryptDecision(m, key, Lookup(x, key), inp);
    if d.Put? {
      WritesCompose(Current(m), a, x, y);
      if Lookup(y, key) == Lookup(x, key) {
        assert WritesPass(Current(m), y, y[key := d.value.value]);
        WritesCompose(Current(m), a, y, y[key := d.value.value]);
      }
    }
  }

  /** Both of the above, said of the store before, of the ending, and of the result alone. */
  lemma ReencryptProgress(m: Manager, others: Others, universe: set<SlotName>, n: nat, a: Records, key: SlotName,
          inp: Input)
    returns (ws: seq<Records>)
    requires var x := others(n, a);
             var y := others(n + 1, x);
             && m.WellConfigured() && x.Keys <= universe && y.Keys <= universe
             && WritesPass(Current(m), a, x) && WritesPass(Current(m), x, y)
    ensures var x := others(n, a);
            var y := others(n + 1, x);
            var d := ReencryptDecision(m, key, Lookup(x, key), inp);
            var (b, r) := ReencryptEnding(m, key, inp, x, y);
            && Progress(m, others, n, a, ws, n + (if d.Put? then 2 else 1), b) && b.Keys <= universe
            && (r == Ok(Migrated) <==> d.Put? && Lookup(y, key) == Lookup(x, key))
            && (r.Ok? && key in a ==> PagePasses(Current(m), b, [key]))
  {
    ws := ReencryptChain(m, others, n, a, key, inp);
    ReencryptPasses(m, universe, a, others(n, a), others(n + 1, others(n, a)), key, inp);
  }

  lemma KeepsPut(same: Same, a: Records, key: SlotName, value: Raw)
    requires Preorder(same) && key in a && same(key, a[key], value)
    ensures Keeps(same, a, a[key := value])
  {
  }

  // ----- who the writers can be -----

  /** The writer seals under the migration's key. */
  predicate SameKey(m: Manager, writer: Manager) {
    && m.WellConfigured() && writer.WellConfigured()
    && writer.keyId == m.keyId && writer.keys[m.keyId] == m.keys[m.keyId]
  }

  lemma SealedIsCurrent(m: Manager, writer: Manager, r: Record, t: TenantId, p: Provider, revision: int, nonce: int)
    requires SameKey(m, writer) && Content(Seal(writer, r, t, p, revision, nonce)).Some?
    ensures CurrentRaw(m, Slot(t, p), Seal(writer, r, t, p, revision, nonce))
  {
  }

  /** What a lifecycle operation of such a writer puts into its slot is current. */
  lemma WriterIsCurrent(m: Manager, writer: Manager, op: Op, prior: Option<Raw>, legacy: bool, inp: Input)
    requires SameKey(m, writer) && Decide(writer, op, prior, legacy, inp).Put?
    ensures var value := Decide(writer, op, prior, legacy, inp).value;
            value.Some? ==> CurrentRaw(m, Target(op), value.value)
  {
    var value := Decide(writer, op, prior, legacy, inp).value;
    if value.Some? {
      DecideWritesWell(writer, op, prior, legacy, inp);
      var r, revision := DecideSeals(writer, op, prior, legacy, inp);
      SealedIsCurrent(m, writer, r, Target(op).tenant, Target(op).provider, revision, inp.nonce);
    }
  }

  /** A current writer that does not delete. */
  predicate GoodWriter(m: Manager, writer: Manager, op: Op) {
    SameKey(m, writer) && !op.DeleteKey?
  }

  predicate GoodWriters(m: Manager, w: World) {
    forall a :: a in w.busy ==> GoodWriter(m, w.busy[a].m, w.busy[a].op)
  }

  lemma WriterStepPasses(m: Manager, w: World, e: Event)
    requires GoodWriters(m, w) && (e.Begin? ==> GoodWriter(m, e.m, e.op))
    ensures GoodWriters(m, Step(w, e)) && WritesPass(Current(m), w.records, Step(w, e).records)
  {
    if e.Commit? && Step(w, e) != w {
      var p := w.busy[e.actor];
      var (used, d) := Commitment(p, e.inp);
      if d.Put? {
        WriterIsCurrent(m, p.m, p.op, p.stage.prior, p.stage.legacy, used);
        DecideWritesWell(p.m, p.op, p.stage.prior, p.stage.legacy, used);
      }
    }
  }

  /** Any run of the lifecycle operations by such writers is something others may do during a wait. */
  lemma {:induction false} WriterRunPasses(m: Manager, w: World, es: seq<Event>)
    requires GoodWriters(m, w) && forall i :: 0 <= i < |es| && es[i].Begin? ==> GoodWriter(m, es[i].m, es[i].op)
    ensures GoodWriters(m, Run(w, es)) && WritesPass(Current(m), w.records, Run(w, es).records)
  {
    if es != [] {
      var v := Run(w, es[..|es| - 1]);
      WriterRunPasses(m, w, es[..|es| - 1]);
      WriterStepPasses(m, v, es[|es| - 1]);
      WritesCompose(Current(m), w.records, v.records, Run(w, es).records);
    }
  }

  /** With a delete the pass can skip a record: after one, the same prefix of the sorted names reaches further. */
  lemma DeleteCanSkip(m: Manager, x: SlotName, y: SlotName, current: Raw, stale: Raw, before: Order)
    requires StrictTotal(before) && before(x, y) && CurrentRaw(m, x, current) && !CurrentRaw(m, y, stale)
    ensures var a: Records := map[x := current, y := stale];
            PrefixPasses(Current(m), a, before, 1) && !PrefixPasses(Current(m), a - {x}, before, 1)
  {
    var a: Records := map[x := current, y := stale];
    RankIsOrder(a.Keys, before, x, y);
    var b := a - {x};
    assert y in b && Smaller(b.Keys, before, y) == {} && Rank(b.Keys, before, y) == 0;
  }

  // ----- the batch and the loop -----

  datatype Report = Report(cursor: int, migrated: nat, current: nat, conflicts: nat, errors: map<ByokError, nat>)

  predicate Clean(report: Report) {
    report.errors == map[] && report.conflicts == 0
  }

  predicate AllClean(reports: seq<Report>) {
    forall i :: 0 <= i < |reports| ==> Clean(reports[i])
  }

  lemma AllCleanMore(reports: seq<Report>, r: Report)
    ensures AllClean(reports + [r]) <==> AllClean(reports) && Clean(r)
  {
    assert forall i :: 0 <= i < |reports| ==> (reports + [r])[i] == reports[i];
    assert (reports + [r])[|reports|] == r;
  }

  function TotalMigrated(reports: seq<Report>): nat {
    if reports == [] then 0 else TotalMigrated(reports[..|reports| - 1]) + reports[|reports| - 1].migrated
  }

  /** How the outcome for one record enters the report. */
  function Tally(report: Report, r: Result<Answer, ByokError>): (next: Report)
    ensures next.cursor == report.cursor
    ensures next.migrated == report.migrated + (if r == Ok(Migrated) then 1 else 0)
    ensures Clean(next) <==> Clean(report) && r.Ok?
  {
    match r
    case Ok(Migrated) => report.(migrated := report.migrated + 1)
    case Ok(AlreadyCurrent) => report.(current := report.current + 1)
    case Ok(_) => report
    case Err(Conflict) => report.(conflicts := report.conflicts + 1)
    case Err(e) =>
      var errors := report.errors[e := Lookup(report.errors, e).GetOr(0) + 1];
      assert e in errors;
      report.(errors := errors)
  }

  /** The report of a page with these outcomes. */
  function Tallied(cursor: int, outcomes: seq<Result<Answer, ByokError>>): Report {
    if outcomes == [] then Report(cursor, 0, 0, 0, map[])
    else Tally(Tallied(cursor, outcomes[..|outcomes| - 1]), outcomes[|outcomes| - 1])
  }

  lemma TallyMore(cursor: int, outcomes: seq<Result<Answer, ByokError>>, r: Result<Answer, ByokError>)
    ensures Tallied(cursor, outcomes + [r]) == Tally(Tallied(cursor, outcomes), r)
  {
    assert (outcomes + [r])[..|outcomes|] == outcomes;
  }

  /** How many records ended like this. */
  function Ended(outcomes: seq<Result<Answer, ByokError>>, r: Result<Answer, ByokError>): nat {
    if outcomes == [] then 0
    else Ended(outcomes[..|outcomes| - 1], r) + (if outcomes[|outcomes| - 1] == r then 1 else 0)
  }

  /** The report counts every ending: migrations, records already current, conflicts, and each error by its code. */
  lemma {:induction false} ReportCounts(cursor: int, outcomes: seq<Result<Answer, ByokError>>, e: ByokError)
    ensures var report := Tallied(cursor, outcomes);
            && report.migrated == Ended(outcomes, Ok(Migrated)) && report.current == Ended(outcomes, Ok(AlreadyCurrent))
            && report.conflicts == Ended(outcomes, Err(Conflict))
            && (e != Conflict ==> Lookup(report.errors, e).GetOr(0) == Ended(outcomes, Err(e)))
            && (e in report.errors <==> e != Conflict && Ended(outcomes, Err(e)) > 0)
  {
    if outcomes != [] {
      ReportCounts(cursor, outcomes[..|outcomes| - 1], e);
    }
  }

  lemma TotalMore(reports: seq<Report>, r: Report)
    ensures TotalMigrated(reports + [r]) == TotalMigrated(reports) + r.migrated
  {
    assert (reports + [r])[..|reports|] == reports;
  }

  /** A report is clean exactly when no record of its page ended in a conflict or an error. */
  lemma {:induction false} CleanMeansNoError(cursor: int, outcomes: seq<Result<Answer, ByokError>>)
    ensures Clean(Tallied(cursor, outcomes)) <==> forall i :: 0 <= i < |outcomes| ==> outcomes[i].Ok?
  {
    if outcomes != [] {
      CleanMeansNoError(cursor, outcomes[..|outcomes| - 1]);
    }
  }

  class Migrator {
    const m: Manager
    const store: MemoryStore
    const universe: set<SlotName>  // every slot name that can ever be in use
    const others: Others
    var waits: nat  // how often this task has waited

    constructor (m: Manager, store: MemoryStore, universe: set<SlotName>, others: Others)
      ensures this.m == m && this.store == store && this.universe == universe && this.others == others && waits == 0
    {
      this.m, this.store, this.universe, this.others := m, store, universe, others;
      waits := 0;
    }

    ghost predicate OtherPasses(n: nat, r: Records) {
      r.Keys <= universe ==> WritesPass(Current(m), r, others(n, r)) && others(n, r).Keys <= universe
    }

    /** Others delete nothing and write only under the current key. */
    ghost predicate OthersPass() {
      forall n: nat, r: Records :: OtherPasses(n, r)
    }

    ghost predicate Ready()
      reads store
    {
      m.WellConfigured() && StrictTotal(store.before) && store.records.Keys <= universe && OthersPass()
    }

    /** What has happened since the store was `a` and `n` waits were over. */
    ghost predicate Since(n: nat, a: Records, ws: seq<Records>)
      reads this, store
    {
      Progress(m, others, n, a, ws, waits, store.records)
    }

    /** Others run while this task waits. */
    method Wait()
      requires Ready()
      modifies store`records, this`waits
      ensures Ready() && waits == old(waits) + 1 && store.records == others(old(waits), old(store.records))
    {
      assert OtherPasses(waits, store.records);
      store.records := others(waits, store.records);
      waits := waits + 1;
    }

    /** The body of the batch's loop: read, open, seal again, swap. */
    method ReencryptOne(key: SlotName, inp: Input) returns (r: Result<Answer, ByokError>)
      requires Ready()
      modifies store, this`waits
      ensures var x := others(old(waits), old(store.records));
              var y := others(old(waits) + 1, x);
              var d := ReencryptDecision(m, key, Lookup(x, key), inp);
              && (store.records, r) == ReencryptEnding(m, key, inp, x, y)
              && store.commits == old(store.commits) + (if d.Put? && Lookup(y, key) == Lookup(x, key) then 1 else 0)
              && waits == old(waits) + (if d.Put? then 2 else 1)
    {
      Wait();
      var raw := store.Get(key);
      if raw.None? {
        return Ok(Missing);
      }
      var found := OpenForReencryption(key, raw.value);
      match found {
        case Err(e) => return Err(e);
        case Ok(None) => return Ok(AlreadyCurrent);
        case Ok(Some(o)) =>
          var replacement := Seal(m, o.record, key.tenant, key.provider, o.revision + 1, inp.nonce);
          Wait();
          var done := store.Cas(key, raw, Some(replacement));
          return if done then Ok(Migrated) else Err(Conflict);
      }
    }

    /** The checks on a record that has been read; nothing to do for one that is current. */
    method OpenForReencryption(key: SlotName, raw: Raw) returns (r: Result<Option<Opened>, ByokError>)
      ensures match PrepareReencrypt(m, key, Some(raw))
              case Ok(plan) => key.Slot? && plan.ReencryptPlan? && r == Ok(Some(plan.current))
              case Err(Reject(e)) => r == Err(e)
              case Err(d) => d == Finish(AlreadyCurrent) && r == Ok(None)
    {
      var claim := Claimed(raw);
      if claim.Err? {
        return Err(claim.error);
      }
      var (tenant, provider) := claim.value;
      if StorageKey(tenant, provider) != key {
        return Err(RecordCorrupt);
      }
      var o := Open(m, raw, tenant, provider);
      if o.Err? {
        return Err(o.error);
      }
      if o.value.kid == m.keyId {
        return Ok(None);
      }
      return Ok(Some(o.value));
    }

    lemma Listed(n: nat, a: Records, key: SlotName, inp: Input) returns (ws: seq<Records>)
      requires m.WellConfigured() && OthersPass() && a.Keys <= universe
      ensures var x := others(n, a);
              var y := others(n + 1, x);
              var d := ReencryptDecision(m, key, Lookup(x, key), inp);
              var (b, r) := ReencryptEnding(m, key, inp, x, y);
              && Progress(m, others, n, a, ws, n + (if d.Put? then 2 else 1), b) && b.Keys <= universe
              && (r == Ok(Migrated) <==> d.Put? && Lookup(y, key) == Lookup(x, key))
              && (r.Ok? && key in a ==> PagePasses(Current(m), b, [key]))
    {
      assert OtherPasses(n, a) && OtherPasses(n + 1, others(n, a));
      ws := ReencryptProgress(m, others, universe, n, a, key, inp);
    }

    /**
      What the batch needs to know about one record: it keeps every record, and an answer that is no error leaves
      a listed one current.
     */
    method ReencryptListed(key: SlotName, inp: Input) returns (r: Result<Answer, ByokError>, ghost ws: seq<Records>)
      requires Ready()
      modifies store, this`waits
      ensures Ready() && Since(old(waits), old(store.records), ws)
      ensures store.commits == old(store.commits) + (if r == Ok(Migrated) then 1 else 0)
      ensures r.Ok? && key in old(store.records) ==> PagePasses(Current(m), store.records, [key])
    {
      ghost var a, n := store.records, waits;
      r := ReencryptOne(key, inp);
      ws := Listed(n, a, key, inp);
    }

    /** The loop over a page. */
    method ReencryptPage(cursor: int, page: seq<SlotName>)
      returns (report: Report, ghost outcomes: seq<Result<Answer, ByokError>>, ghost ws: seq<Records>)
      requires Ready() && forall k :: k in page ==> k in store.records
      modifies store, this`waits
      ensures Ready() && Since(old(waits), old(store.records), ws)
      ensures report == Tallied(cursor, outcomes) && |outcomes| == |page|
      ensures report.cursor == cursor && report.migrated == store.commits - old(store.commits)
      ensures Clean(report) ==> PagePasses(Current(m), store.records, page)
    {
      report, outcomes, ws := Report(cursor, 0, 0, 0, map[]), [], [];
      NoProgress(m, others, waits, store.records);
      for j := 0 to |page|
        invariant Ready() && Since(old(waits), old(store.records), ws)
        invariant report == Tallied(cursor, outcomes) && |outcomes| == j
        invariant report.cursor == cursor && report.migrated == store.commits - old(store.commits)
        invariant Clean(report) ==> PagePasses(Current(m), store.records, page[..j])
      {
        ghost var mid, b := waits, store.records;
        var nonce: int := *;
        assert page[j] in page;
        var r;
        ghost var vs;
        r, vs := ReencryptListed(page[j], Input(Unreachable, 0, 0, nonce));
        MoreProgress(m, others, old(waits), old(store.records), ws, mid, b, vs, waits, store.records);
        ws := ws + vs;
        if Clean(report) && r.Ok? {
          PageGrows(Current(m), b, store.records, page, j);
        }
        TallyMore(cursor, outcomes, r);
        report := Tally(report, r);
        outcomes := outcomes + [r];
      }
      assert page[..|page|] == page;
    }

    /** `reencrypt_batch`. A report without conflicts and errors has dealt with its whole page. */
    method ReencryptBatch(cursor: int, count: int)
      returns (report: Report, ghost outcomes: seq<Result<Answer, ByokError>>, ghost ws: seq<Records>)
      requires Ready()
      modifies store, this`waits
      ensures Ready() && Since(old(waits), old(store.records), ws)
      ensures report.cursor == 0 || cursor < report.cursor < |universe|
      ensures report == Tallied(report.cursor, outcomes) && |outcomes| <= Max(1, Min(count, 1000))
      ensures report.migrated == store.commits - old(store.commits)
      ensures Clean(report) && cursor >= 0 && old(PrefixPasses(Current(m), store.records, store.before, cursor)) ==>
                && PrefixPasses(Current(m), store.records, store.before, report.cursor)
                && (report.cursor == 0 ==> AllPass(Current(m), store.records))
    {
      Wait();
      ghost var mid, a := waits, store.records;
      var size := Max(1, Min(count, 1000));
      var next, page := store.Scan(cursor, size);
      assert |store.records| <= |universe| by {
        SubsetSize(store.records.Keys, universe);
        assert |store.records| == |store.records.Keys|;
      }
      report, outcomes, ws := ReencryptPage(next, page);
      assert OtherPasses(old(waits), old(store.records));
      WaitIsProgress(m, others, old(waits), old(store.records));
      MoreProgress(m, others, old(waits), old(store.records), [old(store.records)], mid, a, ws, waits, store.records);
      ws := [old(store.records)] + ws;
      if Clean(report) && cursor >= 0 && old(PrefixPasses(Current(m), store.records, store.before, cursor)) {
        PrefixSurvives(Current(m), old(store.records), a, store.before, cursor);
        CleanPage(Current(m), a, store.records, store.before, page, cursor, cursor + size);
        if next == 0 {
          assert PrefixPasses(Current(m), store.records, store.before, next);
        }
      }
    }

    /**
      `migrate`. It ends; it returns 0 exactly when every batch of the pass was clean; only others ever
      change a record; and a pass that starts at cursor 0 and returns 0 leaves every record sealed under the
      current key, so that the manager without previous keys opens every slot that others left alone to the
      record it held before the pass.
     */
    method Migrate(start: int, count: int) returns (code: int, ghost reports: seq<Report>, ghost ws: seq<Records>)
      requires Ready()
      modifies store, this`waits
      ensures Ready() && Since(old(waits), old(store.records), ws)
      ensures code == if AllClean(reports) then 0 else 1
      ensures |reports| > 0 && forall i :: 0 <= i < |reports| ==> (reports[i].cursor == 0 <==> i == |reports| - 1)
      ensures TotalMigrated(reports) == store.commits - old(store.commits)
      ensures start == 0 && code == 0 ==> AllPass(Current(m), store.records)
      ensures start == 0 && code == 0 ==>
                  RetirementLosesNothing(m, others, old(waits), old(store.records), ws, store.records)
    {
      var cursor, failed := start, false;
      reports, ws := [], [];
      NoProgress(m, others, waits, store.records);
      while true
        invariant Ready() && Since(old(waits), old(store.records), ws)
        invariant start == 0 && !failed ==> cursor >= 0 && PrefixPasses(Current(m), store.records, store.before, cursor)
        invariant failed <==> !AllClean(reports)
        invariant forall i :: 0 <= i < |reports| ==> reports[i].cursor != 0
        invariant TotalMigrated(reports) == store.commits - old(store.commits)
        decreases |universe| - cursor
      {
        ghost var mid, b := waits, store.records;
        var report;
        ghost var outcomes, vs;
        report, outcomes, vs := ReencryptBatch(cursor, count);
        MoreProgress(m, others, old(waits), old(store.records), ws, mid, b, vs, waits, store.records);
        ws := ws + vs;
        failed := failed || report.errors != map[] || report.conflicts != 0;
        cursor := report.cursor;
        TotalMore(reports, report);
        AllCleanMore(reports, report);
        reports := reports + [report];
        if cursor == 0 {
          if start == 0 && !failed {
            AfterCleanPass(m, others, old(waits), old(store.records), ws, waits, store.records);
          }
          return if failed then 1 else 0, reports, ws;
        }
      }
    }
  }
}
