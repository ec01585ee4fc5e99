/**
  What every run of the credential store keeps: a slot's owner, its revision count, who may commit,
  and the meaning of a stored `valid`.
 */
module ByokTruth {
  import opened Wrappers
  import opened Byok
  import opened ByokProtocol

  /** The operation is allowed to touch a slot with this owner; the migration carries no actor. */
  predicate MayCommit(op: Op, owner: string) {
    op.Reencrypt? || Authorized(owner, op.actor, op.delegated)
  }

  /** A write over an existing record keeps its owner, raises the revision by one and is allowed. */
  predicate Succeeds(op: Op, before: Opened, after: Opened) {
    && after.record.owner == before.record.owner
    && after.revision == before.revision + 1
    && MayCommit(op, before.record.owner)
  }

  predicate FreshRecord(op: Op, after: Opened) {
    op.StoreKey? && after.revision == 1 && after.record.owner == op.actor.GetOr("")
  }

  /** What a write leaves in its slot, given what was there. */
  predicate GoodWrite(op: Op, before: Option<Raw>, value: Option<Raw>) {
    match before
    case None => value.Some? && Content(value.value).Some? && FreshRecord(op, Content(value.value).value)
    case Some(raw) =>
      && Content(raw).Some?
      && match value
         case None => op.DeleteKey? && MayCommit(op, Content(raw).value.record.owner)
         case Some(new_) => Content(new_).Some? && Succeeds(op, Content(raw).value, Content(new_).value)
  }

  /** A plan for an operation that has read `prior`: it carries that record, and the operation may touch it. */
  predicate PlanFor(op: Op, plan: Plan, prior: Option<Raw>) {
    && (match plan
        case StorePlan(existing, clean) =>
          && op.StoreKey? && clean == Strip(op.apiKey) && GoodLength(clean)
          && existing == if prior.Some? then Content(prior.value) else None
        case RotatePlan(o, clean) =>
          op.RotateKey? && clean == Strip(op.apiKey) && GoodLength(clean)
          && prior.Some? && Content(prior.value) == Some(o)
        case ValidatePlan(o) => op.ValidateStoredKey? && prior.Some? && Content(prior.value) == Some(o)
        case RevokePlan(o) => op.RevokeKey? && prior.Some? && Content(prior.value) == Some(o)
        case DeletePlan(o) => op.DeleteKey? && prior.Some? && Content(prior.value) == Some(o)
        case ReencryptPlan(o) => op.Reencrypt? && op.key.Slot? && prior.Some? && Content(prior.value) == Some(o))
    && (prior.Some? ==>
          && Content(prior.value).Some? && MayCommit(op, Content(prior.value).value.record.owner)
          && Target(op).Slot? && prior.value.provider == Some(Target(op).provider))
  }

  lemma OpenAuthorizedContent(m: Manager, raw: Raw, t: TenantId, p: Provider, actor: Option<string>, delegated: bool)
    requires OpenAuthorized(m, raw, t, p, actor, delegated).Ok?
    ensures Content(raw) == Some(OpenAuthorized(m, raw, t, p, actor, delegated).value)
    ensures Authorized(Content(raw).value.record.owner, actor, delegated) && raw.provider == Some(p)
  {
    OpenIsContent(m, raw, t, p);
  }

  lemma PreparePlansForPrior(m: Manager, op: Op, prior: Option<Raw>, legacy: bool)
    requires Prepare(m, op, prior, legacy).Ok?
    ensures PlanFor(op, Prepare(m, op, prior, legacy).value, prior)
  {
    if prior.Some? {
      if op.Reencrypt? {
        var claim := Claimed(prior.value).value;
        OpenIsContent(m, prior.value, claim.0, claim.1);
      } else {
        OpenAuthorizedContent(m, prior.value, op.tenant, op.provider, op.actor, op.delegated);
      }
    }
  }

  lemma SealedContent(m: Manager, r: Record, t: TenantId, p: Provider, revision: int, nonce: int)
    requires m.WellConfigured() && revision >= 1 && !r.status.UnknownStatus?
    ensures var raw := Seal(m, r, t, p, revision, nonce);
            Content(raw) == Some(Opened(r, revision, m.keyId)) && raw.provider == Some(p)
  {
  }

  lemma ContentIsSound(raw: Raw)
    requires Content(raw).Some?
    ensures Content(raw).value.revision >= 1 && !Content(raw).value.record.status.UnknownStatus?
  {
  }

  lemma CompleteWritesWell(m: Manager, op: Op, plan: Plan, prior: Option<Raw>, inp: Input)
    requires m.WellConfigured() && PlanFor(op, plan, prior) && Complete(m, op, plan, inp).Put?
    ensures GoodWrite(op, prior, Complete(m, op, plan, inp).value)
  {
    var value := Complete(m, op, plan, inp).value;
    if prior.Some? {
      ContentIsSound(prior.value);
    }
    if value.Some? {
      var sealed := value.value.body.payload;
      assert sealed.Sealed? && sealed.plain.Rec?;
      SealedContent(m, sealed.plain.record, Target(op).tenant, Target(op).provider, value.value.body.revision,
        inp.nonce);
    }
  }

  /** Every operation, over everything it can have read, writes well. */
  lemma DecideWritesWell(m: Manager, op: Op, prior: Option<Raw>, legacy: bool, inp: Input)
    requires m.WellConfigured() && Decide(m, op, prior, legacy, inp).Put?
    ensures GoodWrite(op, prior, Decide(m, op, prior, legacy, inp).value)
  {
    if Prepare(m, op, prior, legacy).Ok? {
      PreparePlansForPrior(m, op, prior, legacy);
      CompleteWritesWell(m, op, Prepare(m, op, prior, legacy).value, prior, inp);
    } else {
      PrepareNeverWrites(m, op, prior, legacy);
    }
  }

  /** A written text is sealed for the operation's slot. */
  lemma CompleteSeals(m: Manager, op: Op, plan: Plan, inp: Input) returns (r: Record, revision: int)
    requires m.WellConfigured() && Fits(op, plan) && Complete(m, op, plan, inp).Put?
         && Complete(m, op, plan, inp).value.Some?
    ensures Target(op).Slot?
    ensures Complete(m, op, plan, inp).value.value
         == Seal(m, r, Target(op).tenant, Target(op).provider, revision, inp.nonce)
  {
    var body := Complete(m, op, plan, inp).value.value.body;
    r, revision := body.payload.plain.record, body.revision;
  }

  lemma DecideSeals(m: Manager, op: Op, prior: Option<Raw>, legacy: bool, inp: Input) returns (r: Record, revision: int)
    requires m.WellConfigured() && Decide(m, op, prior, legacy, inp).Put?
         && Decide(m, op, prior, legacy, inp).value.Some?
    ensures Target(op).Slot?
    ensures Decide(m, op, prior, legacy, inp).value.value
         == Seal(m, r, Target(op).tenant, Target(op).provider, revision, inp.nonce)
  {
    if Prepare(m, op, prior, legacy).Ok? {
      PreparePlansForPrior(m, op, prior, legacy);
      r, revision := CompleteSeals(m, op, Prepare(m, op, prior, legacy).value, inp);
    } else {
      PrepareNeverWrites(m, op, prior, legacy);
    }
  }

  lemma PrepareNeverWrites(m: Manager, op: Op, prior: Option<Raw>, legacy: bool)
    requires Prepare(m, op, prior, legacy).Err?
    ensures !Prepare(m, op, prior, legacy).error.Put?
  {
  }

  // ----- ownership and revisions -----

  function CommitsTo(log: seq<Entry>, key: SlotName): nat {
    if log == [] then 0
    else CommitsTo(log[..|log| - 1], key) + (if Target(log[|log| - 1].op) == key then 1 else 0)
  }

  lemma StepOnSlot(w: World, e: Event, key: SlotName)
    requires key in w.records && key in Step(w, e).records
    ensures var w' := Step(w, e);
            var n := CommitsTo(w'.log, key) - CommitsTo(w.log, key);
            if Content(w.records[key]).None? then w'.records[key] == w.records[key] && n == 0
            else && Content(w'.records[key]).Some? && n >= 0
                 && Content(w'.records[key]).value.record.owner == Content(w.records[key]).value.record.owner
                 && Content(w'.records[key]).value.revision == Content(w.records[key]).value.revision + n
  {
    var w' := Step(w, e);
    if w'.log != w.log {
      var p := w.busy[e.actor];
      var (used, d) := Commitment(p, e.inp);
      assert w'.log[..|w.log|] == w.log;
      assert w'.records == PutRaw(w.records, Target(p.op), d.value);
      DecideWritesWell(p.m, p.op, p.stage.prior, p.stage.legacy, used);
    }
  }

  /**
    Over any stretch of any run in which a slot exists throughout, its owner never changes and its
    revision rises by exactly one per commit to it; a slot nobody can read is never written.
   */
  lemma {:induction false} OwnerNeverChanges(w: World, es: seq<Event>, key: SlotName)
    requires forall n :: 0 <= n <= |es| ==> key in Run(w, es[..n]).records
    ensures key in w.records && key in Run(w, es).records
    ensures var w' := Run(w, es);
            var n := CommitsTo(w'.log, key) - CommitsTo(w.log, key);
            if Content(w.records[key]).None? then w'.records[key] == w.records[key] && n == 0
            else && Content(w'.records[key]).Some? && n >= 0
                 && Content(w'.records[key]).value.record.owner == Content(w.records[key]).value.record.owner
                 && Content(w'.records[key]).value.revision == Content(w.records[key]).value.revision + n
    decreases |es|
  {
    assert es[..0] == [] && es[..|es|] == es;
    if es != [] {
      var front := es[..|es| - 1];
      forall n | 0 <= n <= |front|
        ensures key in Run(w, front[..n]).records
      {
        assert front[..n] == es[..n];
      }
      OwnerNeverChanges(w, front, key);
      StepOnSlot(Run(w, front), es[|es| - 1], key);
    }
  }

  predicate GoodEntry(e: Entry) {
    match e.before
    case None => e.op.StoreKey?
    case Some(raw) => Content(raw).Some? && MayCommit(e.op, Content(raw).value.record.owner)
  }

  /** Every commit on an existing slot is by its owner, unless it names nobody or is delegated. */
  lemma {:induction false} CommitsAreByOwners(records: Records, probed: set<(Provider, string)>, es: seq<Event>, i: nat)
    requires i < |Run(Fresh(records, probed), es).log|
    ensures GoodEntry(Run(Fresh(records, probed), es).log[i])
  {
    var w := Run(Fresh(records, probed), es[..|es| - 1]);
    OnlyCommitsWrite(w, es[|es| - 1]);
    if i < |w.log| {
      CommitsAreByOwners(records, probed, es[..|es| - 1], i);
    } else {
      var e := es[|es| - 1];
      var p := w.busy[e.actor];
      DecideWritesWell(p.m, p.op, p.stage.prior, p.stage.legacy, Commitment(p, e.inp).0);
    }
  }

  // ----- what `valid` means -----

  /** A stored credential is stripped, and it is marked valid only if the provider accepted this very one. */
  predicate TruthfulRaw(raw: Raw, probed: set<(Provider, string)>) {
    Content(raw).Some? ==>
      var r := Content(raw).value.record;
      && Strip(r.apiKey) == r.apiKey
      && (r.validation == Some(Valid) ==> (raw.provider.value, r.apiKey) in probed)
  }

  predicate TruthfulPending(p: Pending, probed: set<(Provider, string)>) {
    p.stage.Asked? && p.stage.probe.Accepted? && !p.op.Reencrypt? ==>
      && Question(p.(stage := Checked(p.stage.prior, p.stage.legacy))).Some?
      && (p.op.provider, Question(p.(stage := Checked(p.stage.prior, p.stage.legacy))).value) in probed
  }

  predicate Truthful(w: World) {
    && (forall k :: k in w.records ==> TruthfulRaw(w.records[k], w.probed))
    && (forall a :: a in w.busy ==> TruthfulPending(w.busy[a], w.probed))
  }

  /** A credential that passed `_validate` as enabled is the one the provider was asked about. */
  lemma CompleteIsTruthful(m: Manager, op: Op, plan: Plan, prior: Option<Raw>, inp: Input,
          probed: set<(Provider, string)>)
    requires m.WellConfigured() && PlanFor(op, plan, prior)
    requires prior.Some? ==> TruthfulRaw(prior.value, probed)
    requires inp.probe.Accepted? && !op.Reencrypt? && Asks(op, plan).Some? ==>
                (op.provider, Asks(op, plan).value) in probed
    ensures var d := Complete(m, op, plan, inp);
            d.Put? && d.value.Some? ==> TruthfulRaw(d.value.value, probed)
  {
    var d := Complete(m, op, plan, inp);
    if d.Put? && d.value.Some? {
      CompleteWritesWell(m, op, plan, prior, inp);
      var r := d.value.value.body.payload.plain.record;
      assert d.value.value.provider == Some(Target(op).provider);
      match plan
      case StorePlan(existing, clean) =>
        StripIsIdempotent(op.apiKey);
        assert r.apiKey == clean;
      case RotatePlan(o, clean) =>
        StripIsIdempotent(op.apiKey);
        assert r.apiKey == clean;
      case ValidatePlan(o) =>
        assert r.apiKey == o.record.apiKey;
      case RevokePlan(o) =>
        assert r.apiKey == o.record.apiKey && r.validation == o.record.validation;
      case ReencryptPlan(o) =>
        assert r == o.record;
      case DeletePlan(o) =>
    }
  }

  lemma DecideIsTruthful(m: Manager, op: Op, prior: Option<Raw>, legacy: bool, inp: Input,
          probed: set<(Provider, string)>)
    requires m.WellConfigured()
    requires prior.Some? ==> TruthfulRaw(prior.value, probed)
    requires Prepare(m, op, prior, legacy).Ok? && inp.probe.Accepted? && !op.Reencrypt? ==>
               var q := Asks(op, Prepare(m, op, prior, legacy).value);
               q.Some? ==> (op.provider, q.value) in probed
    ensures var d := Decide(m, op, prior, legacy, inp);
            d.Put? && d.value.Some? ==> TruthfulRaw(d.value.value, probed)
  {
    if Prepare(m, op, prior, legacy).Ok? {
      PreparePlansForPrior(m, op, prior, legacy);
      CompleteIsTruthful(m, op, Prepare(m, op, prior, legacy).value, prior, inp, probed);
    } else {
      PrepareNeverWrites(m, op, prior, legacy);
    }
  }

  lemma CommitIsTruthful(w: World, p: Pending, inp: Input)
    requires p.m.WellConfigured() && ReadyToCommit(p) && TruthfulPending(p, w.probed)
    requires forall k :: k in w.records ==> TruthfulRaw(w.records[k], w.probed)
    ensures var w' := CommitStep(w, p, inp);
            w'.probed == w.probed && w'.busy == w.busy && forall k :: k in w'.records ==>
              TruthfulRaw(w'.records[k], w.probed)
  {
    var (used, d) := Commitment(p, inp);
    if d.Put? && Lookup(w.records, Target(p.op)) == p.stage.prior {
      DecideIsTruthful(p.m, p.op, p.stage.prior, p.stage.legacy, used, w.probed);
    }
  }

  lemma {:induction false} StepIsTruthful(w: World, e: Event)
    requires Truthful(w)
    ensures Truthful(Step(w, e))
  {
    if e.Commit? {
      if Step(w, e) != w {
        CommitIsTruthful(w.(busy := w.busy - {e.actor}), w.busy[e.actor], e.inp);
      }
    } else {
      assert w.probed <= Step(w, e).probed;
    }
  }

  /**
    In every run, whatever rotation races whatever validation: a stored `valid` always says that the
    provider accepted exactly the credential that is stored beside it.
   */
  lemma {:induction false} ValidMeansAccepted(records: Records, probed: set<(Provider, string)>, es: seq<Event>)
    requires forall k :: k in records ==> TruthfulRaw(records[k], probed)
    ensures Truthful(Run(Fresh(records, probed), es))
  {
    if es != [] {
      ValidMeansAccepted(records, probed, es[..|es| - 1]);
      StepIsTruthful(Run(Fresh(records, probed), es[..|es| - 1]), es[|es| - 1]);
    }
  }

  /** In this state the event is the provider's `Accepted` to the question about exactly this credential. */
  predicate AcceptsNow(w: World, e: Event, pair: (Provider, string)) {
    && e.Ask? && e.answer.Accepted? && e.actor in w.busy
    && w.busy[e.actor].stage.Checked? && !w.busy[e.actor].op.Reencrypt?
    && w.busy[e.actor].op.provider == pair.0 && Question(w.busy[e.actor]) == Some(pair.1)
  }

  lemma OnlyAnswersAccept(w: World, e: Event, pair: (Provider, string))
    requires pair in Step(w, e).probed && pair !in w.probed
    ensures AcceptsNow(w, e, pair)
  {
  }

  /**
    The set of accepted credentials only holds what an `Accepted` answer of the run, about that credential, put
    there.
   */
  lemma {:induction false} AcceptedNeedsAnAnswer(w: World, es: seq<Event>, pair: (Provider, string))
    requires pair in Run(w, es).probed && pair !in w.probed
    ensures exists i :: 0 <= i < |es| && AcceptsNow(Run(w, es[..i]), es[i], pair)
  {
    var front, e := es[..|es| - 1], es[|es| - 1];
    if pair in Run(w, front).probed {
      AcceptedNeedsAnAnswer(w, front, pair);
      var i :| 0 <= i < |front| && AcceptsNow(Run(w, front[..i]), front[i], pair);
      assert es[i] == front[i] && es[..i] == front[..i];
    } else {
      OnlyAnswersAccept(Run(w, front), e, pair);
      assert AcceptsNow(Run(w, es[..|front|]), es[|front|], pair);
    }
  }
}
