/**
  What each lifecycle operation means for the record in its slot: what its commit leaves there and answers,
  when it commits at all, and what follows for whole runs: a revoked credential stays revoked until somebody
  stores or rotates one.
 */
module ByokEffects {
  import opened Wrappers
  import opened Byok
  import opened ByokCalls
  import opened ByokProtocol
  import opened ByokTruth

  // ----- which texts open -----

  /** The manager that sealed under this key id. */
  function Sealer(kid: string, key: int): Manager {
    Manager(kid, map[kid := key], {})
  }

  /** A text opens exactly if it is a seal, for this very slot, under a key that the reader still has. */
  lemma OpensExactlySeals(m: Manager, raw: Raw, t: TenantId, p: Provider, o: Opened)
    ensures Open(m, raw, t, p) == Ok(o)
       <==> m.Key(o.kid).Ok? && o.revision >= 1 && !o.record.status.UnknownStatus?
            && exists nonce: int :: raw == Seal(Sealer(o.kid, m.Key(o.kid).value), o.record, t, p, o.revision, nonce)
  {
    if Open(m, raw, t, p) == Ok(o) {
      var nonce := raw.body.payload.nonce;
      assert raw == Seal(Sealer(o.kid, m.Key(o.kid).value), o.record, t, p, o.revision, nonce);
    }
  }

  // ----- what a commit leaves -----

  /** The same key, owner, status and creation; only when the record changed and what is known of it may differ. */
  predicate SameCredential(a: Record, b: Record) {
    a.apiKey == b.apiKey && a.owner == b.owner && a.status == b.status && a.createdAt == b.createdAt
  }

  predicate SameValidation(a: Record, b: Record) {
    a.lastValidatedAt == b.lastValidatedAt && a.validation == b.validation
  }

  /** A stored credential that was validated as asked: accepted by the provider, or not asked about at all. */
  predicate ValidatedAsAsked(r: Record, validate: bool, inp: Input) {
    if validate then inp.probe.Accepted? && r.validation == Some(Valid) && r.lastValidatedAt == Some(inp.validatedAt)
    else r.validation == Some(Untested) && r.lastValidatedAt.None?
  }

  /** The new credential is active, stripped, of a good length, changed now and validated as asked. */
  predicate FreshCredential(r: Record, apiKey: string, validate: bool, inp: Input) {
    && r.status == Active && r.apiKey == Strip(apiKey) && 8 <= |r.apiKey| <= 4096 && r.updatedAt == Some(inp.now)
    && ValidatedAsAsked(r, validate, inp)
  }

  /** What the caller is shown of a record: never its key, and `configured` exactly while it is active. */
  predicate Shows(answer: Answer, t: TenantId, p: Provider, r: Record) {
    && answer.View? && answer.view.tenant == t && answer.view.provider == p
    && answer.view.maskedKey == (if r.apiKey == "" then "" else "********")
      && (answer.view.configured <==> r.status == Active)
    && answer.view.createdAt == r.createdAt && answer.view.updatedAt == r.updatedAt
    && answer.view.lastValidatedAt == r.lastValidatedAt && answer.view.validation == r.validation
  }

  /** The verdict on a stored credential, as the caller and the record get it. */
  predicate Judged(r: Record, answer: Answer, inp: Input) {
    && answer.Verdict? && (answer.valid <==> r.validation == Some(Valid)) && (answer.valid <==> answer.error.None?)
    && (r.validation == Some(Valid) <==> GoodLength(Strip(r.apiKey)) && inp.probe.Accepted?)
    && (r.validation == Some(Unavailable) <==> GoodLength(Strip(r.apiKey)) && inp.probe.Unreachable?)
    && (r.validation == Some(Valid) || r.validation == Some(Unavailable) || r.validation == Some(Invalid))
  }

  /** What the committed operation of this entry leaves in its slot. */
  predicate Leaves(e: Entry, now: Option<Raw>) {
    var old_ := if e.before.Some? then Content(e.before.value) else None;
    var new_ := if now.Some? then Content(now.value) else None;
    && (e.before.Some? ==> old_.Some?) && (now.Some? ==> new_.Some?)
    && match e.op
       case StoreKey(t, p, key, validate, actor, _) =>
         && new_.Some? && FreshCredential(new_.value.record, key, validate, e.inp)
         && Shows(e.answer, t, p, new_.value.record)
         && (if old_.None? then
               new_.value.record.owner == actor.GetOr("") && new_.value.record.createdAt == Some(e.inp.now)
             else
               && new_.value.record.owner == old_.value.record.owner
               && new_.value.record.createdAt == Some(old_.value.record.createdAt.GetOr(e.inp.now)))
       case RotateKey(t, p, key, validate, _, _) =>
         && old_.Some? && new_.Some? && FreshCredential(new_.value.record, key, validate, e.inp)
         && Shows(e.answer, t, p, new_.value.record)
         && new_.value.record.owner == old_.value.record.owner
         && new_.value.record.createdAt == old_.value.record.createdAt
       case ValidateStoredKey(_, _, _, _) =>
         && old_.Some? && new_.Some? && old_.value.record.status == Active
         && SameCredential(old_.value.record, new_.value.record)
         && new_.value.record.updatedAt == old_.value.record.updatedAt
         && new_.value.record.lastValidatedAt == Some(e.inp.validatedAt)
         && Judged(new_.value.record, e.answer, e.inp)
       case RevokeKey(t, p, _, _) =>
         && old_.Some? && new_.Some? && new_.value.record.status == RevokedStatus
         && SameCredential(old_.value.record.(status := RevokedStatus), new_.value.record)
         && SameValidation(old_.value.record, new_.value.record)
         && new_.value.record.updatedAt == Some(e.inp.now) && Shows(e.answer, t, p, new_.value.record)
       case DeleteKey(_, _, _, _) => old_.Some? && now.None? && e.answer == Deleted(true)
       case Reencrypt(_) =>
         && old_.Some? && new_.Some? && new_.value.record == old_.value.record && e.answer == Migrated
         && old_.value.kid != e.m.keyId && new_.value.kid == e.m.keyId
  }

  lemma StoreLeaves(m: Manager, op: Op, plan: Plan, prior: Option<Raw>, inp: Input)
    requires m.WellConfigured() && PlanFor(op, plan, prior) && Complete(m, op, plan, inp).Put? && plan.StorePlan?
    ensures Leaves(Entry(m, op, inp, prior, Complete(m, op, plan, inp).answer), Complete(m, op, plan, inp).value)
  {
    StripIsIdempotent(op.apiKey);
    if prior.Some? {
      ContentIsSound(prior.value);
    }
  }

  lemma RotateLeaves(m: Manager, op: Op, plan: Plan, prior: Option<Raw>, inp: Input)
    requires m.WellConfigured() && PlanFor(op, plan, prior) && Complete(m, op, plan, inp).Put? && plan.RotatePlan?
    ensures Leaves(Entry(m, op, inp, prior, Complete(m, op, plan, inp).answer), Complete(m, op, plan, inp).value)
  {
    StripIsIdempotent(op.apiKey);
    ContentIsSound(prior.value);
  }

  lemma ChangeLeaves(m: Manager, op: Op, plan: Plan, prior: Option<Raw>, inp: Input)
    requires m.WellConfigured() && PlanFor(op, plan, prior) && Complete(m, op, plan, inp).Put?
    requires plan.RevokePlan? || plan.DeletePlan?
    ensures Leaves(Entry(m, op, inp, prior, Complete(m, op, plan, inp).answer), Complete(m, op, plan, inp).value)
  {
    ContentIsSound(prior.value);
  }

  lemma CheckLeaves(m: Manager, op: Op, plan: Plan, prior: Option<Raw>, inp: Input)
    requires m.WellConfigured() && PlanFor(op, plan, prior) && Complete(m, op, plan, inp).Put?
    requires (plan.ValidatePlan? && plan.current.record.status == Active)
          || (plan.ReencryptPlan? && plan.current.kid != m.keyId)
    ensures Leaves(Entry(m, op, inp, prior, Complete(m, op, plan, inp).answer), Complete(m, op, plan, inp).value)
  {
    ContentIsSound(prior.value);
  }

  /** The plan of a validation is for an active record, that of a migration for one under another key. */
  lemma PlanIsDue(m: Manager, op: Op, prior: Option<Raw>, legacy: bool)
    requires Prepare(m, op, prior, legacy).Ok?
    ensures var plan := Prepare(m, op, prior, legacy).value;
            && (plan.ValidatePlan? ==> plan.current.record.status == Active)
            && (plan.ReencryptPlan? ==> plan.current.kid != m.keyId)
  {
  }

  lemma DecideLeaves(m: Manager, op: Op, prior: Option<Raw>, legacy: bool, inp: Input)
    requires m.WellConfigured() && Decide(m, op, prior, legacy, inp).Put?
    ensures var d := Decide(m, op, prior, legacy, inp);
            Leaves(Entry(m, op, inp, prior, d.answer), d.value)
  {
    if Prepare(m, op, prior, legacy).Ok? {
      PreparePlansForPrior(m, op, prior, legacy);
      PlanIsDue(m, op, prior, legacy);
      var plan := Prepare(m, op, prior, legacy).value;
      if plan.StorePlan? {
        StoreLeaves(m, op, plan, prior, inp);
      } else if plan.RotatePlan? {
        RotateLeaves(m, op, plan, prior, inp);
      } else if plan.RevokePlan? || plan.DeletePlan? {
        ChangeLeaves(m, op, plan, prior, inp);
      } else {
        CheckLeaves(m, op, plan, prior, inp);
      }
    } else {
      PrepareNeverWrites(m, op, prior, legacy);
    }
  }

  // ----- when an operation commits -----

  /** The operation's record is there, opens for it, and may be touched by its actor. */
  predicate Owns(m: Manager, op: Op, prior: Option<Raw>)
    requires !op.Reencrypt?
  {
    && op.tenant != NO_TENANT && !op.provider.Other? && prior.Some?
    && Open(m, prior.value, op.tenant, op.provider).Ok?
    && Authorized(Open(m, prior.value, op.tenant, op.provider).value.record.owner, op.actor, op.delegated)
  }

  /** Where nothing changes between the reads and the swap, exactly these operations write. */
  predicate MayWrite(m: Manager, op: Op, prior: Option<Raw>, legacy: bool, inp: Input) {
    match op
    case StoreKey(t, p, key, validate, _, _) =>
      && GoodLength(Strip(key)) && (validate ==> inp.probe.Accepted?)
      && (if prior.None? then t != NO_TENANT && !p.Other? && !legacy else Owns(m, op, prior))
    case RotateKey(_, _, key, validate, _, _) =>
      Owns(m, op, prior) && GoodLength(Strip(key)) && (validate ==> inp.probe.Accepted?)
    case ValidateStoredKey(t, p, _, _) =>
      Owns(m, op, prior) && Open(m, prior.value, t, p).value.record.status == Active
    case RevokeKey(_, _, _, _) => Owns(m, op, prior)
    case DeleteKey(_, _, _, _) => Owns(m, op, prior)
    case Reencrypt(key) =>
      && key.Slot? && key.tenant != NO_TENANT && !key.provider.Other? && prior.Some?
      && Open(m, prior.value, key.tenant, key.provider).Ok?
      && Open(m, prior.value, key.tenant, key.provider).value.kid != m.keyId
  }

  /** A stripped credential of a good length passes its validation exactly if none is asked for or it is accepted. */
  lemma FieldsExactlyWhen(key: string, enabled: bool, inp: Input)
    requires GoodLength(Strip(key))
    ensures ValidationFields(Strip(key), enabled, inp).Ok? <==> (enabled ==> inp.probe.Accepted?)
  {
    StripIsIdempotent(key);
  }

  lemma PlanWrites(m: Manager, op: Op, plan: Plan, inp: Input, clean: string)
    requires m.WellConfigured() && Fits(op, plan)
    requires (plan.StorePlan? || plan.RotatePlan?) && plan.clean == clean
    ensures Complete(m, op, plan, inp).Put? <==> ValidationFields(clean, op.validate, inp).Ok?
  {
  }

  /** Up to the provider, a new credential is fit to be stored. */
  predicate FitToStore(m: Manager, op: Op, prior: Option<Raw>, legacy: bool)
    requires op.StoreKey? || op.RotateKey?
  {
    && GoodLength(Strip(op.apiKey))
    && (if op.StoreKey? && prior.None? then op.tenant != NO_TENANT && !op.provider.Other? && !legacy
        else Owns(m, op, prior))
  }

  lemma PlansWhenFit(m: Manager, op: Op, prior: Option<Raw>, legacy: bool)
    requires op.StoreKey? || op.RotateKey?
    ensures Prepare(m, op, prior, legacy).Ok? <==> FitToStore(m, op, prior, legacy)
    ensures Prepare(m, op, prior, legacy).Ok? ==>
              var plan := Prepare(m, op, prior, legacy).value;
              Fits(op, plan) && (plan.StorePlan? || plan.RotatePlan?) && plan.clean == Strip(op.apiKey)
  {
  }

  lemma NewKeyWritesIff(m: Manager, op: Op, prior: Option<Raw>, legacy: bool, inp: Input)
    requires m.WellConfigured() && (op.StoreKey? || op.RotateKey?)
    ensures Decide(m, op, prior, legacy, inp).Put? <==> MayWrite(m, op, prior, legacy, inp)
  {
    PlansWhenFit(m, op, prior, legacy);
    if Prepare(m, op, prior, legacy).Ok? {
      PlanWrites(m, op, Prepare(m, op, prior, legacy).value, inp, Strip(op.apiKey));
      FieldsExactlyWhen(op.apiKey, op.validate, inp);
    } else {
      PrepareNeverWrites(m, op, prior, legacy);
    }
  }

  lemma OldKeyWritesIff(m: Manager, op: Op, prior: Option<Raw>, legacy: bool, inp: Input)
    requires m.WellConfigured() && !op.StoreKey? && !op.RotateKey? && !op.Reencrypt?
    ensures Decide(m, op, prior, legacy, inp).Put? <==> MayWrite(m, op, prior, legacy, inp)
  {
  }

  lemma MigrationWritesIff(m: Manager, key: SlotName, prior: Option<Raw>, legacy: bool, inp: Input)
    requires m.WellConfigured()
    ensures Decide(m, Reencrypt(key), prior, legacy, inp).Put? <==> MayWrite(m, Reencrypt(key), prior, legacy, inp)
  {
    if prior.Some? && Claimed(prior.value).Ok? {
      var claim := Claimed(prior.value).value;
      if Open(m, prior.value, claim.0, claim.1).Ok? {
        OpenIsContent(m, prior.value, claim.0, claim.1);
      }
    }
    if key.Slot? && prior.Some? && Open(m, prior.value, key.tenant, key.provider).Ok? {
      OpenIsContent(m, prior.value, key.tenant, key.provider);
    }
  }

  /** An operation decides to write exactly when it may; so an owner's revocation is never turned down. */
  lemma WritesExactlyWhenItMay(m: Manager, op: Op, prior: Option<Raw>, legacy: bool, inp: Input)
    requires m.WellConfigured()
    ensures Decide(m, op, prior, legacy, inp).Put? <==> MayWrite(m, op, prior, legacy, inp)
  {
    if op.Reencrypt? {
      MigrationWritesIff(m, op.key, prior, legacy, inp);
    } else if op.StoreKey? || op.RotateKey? {
      NewKeyWritesIff(m, op, prior, legacy, inp);
    } else {
      OldKeyWritesIff(m, op, prior, legacy, inp);
    }
  }

  /** The stored text names one of these keys. */
  predicate KeyIdIn(raw: Raw, kids: set<string>) {
    raw.Object? && raw.body.Exact? && raw.body.kid in kids
  }

  /** What a refusal of a lifecycle operation says is so. */
  predicate Because(m: Manager, op: Op, prior: Option<Raw>, legacy: bool, inp: Input, e: ByokError)
    requires !op.Reencrypt?
  {
    var found := if prior.Some? then Open(m, prior.value, op.tenant, op.provider) else Err(NotConfigured);
    match e
    case IdentityRequired => op.tenant == NO_TENANT
    case UnsupportedProvider => op.provider.Other?
    case InvalidKey => (op.StoreKey? || op.RotateKey?) && !GoodLength(Strip(op.apiKey))
    case NotConfigured => prior.None? && !legacy && !op.StoreKey? && !op.DeleteKey?
    case LegacyRecord => (prior.None? && legacy) || found == Err(e)
    case OwnerRequired => found.Ok? && !Authorized(found.value.record.owner, op.actor, op.delegated)
    case Revoked => op.ValidateStoredKey? && found.Ok? && found.value.record.status != Active
    case ProviderRejected => (op.StoreKey? || op.RotateKey?) && op.validate && inp.probe.Refused?
    case ProviderUnavailable => (op.StoreKey? || op.RotateKey?) && op.validate && inp.probe.Unreachable?
    case Conflict => false
    case KeyRetired => prior.Some? && found == Err(e) && KeyIdIn(prior.value, m.retired)
    case KeyUnknown => prior.Some? && found == Err(e) && !KeyIdIn(prior.value, m.retired + m.keys.Keys)
    case _ => prior.Some? && found == Err(e)
  }

  lemma OpenRefuses(m: Manager, op: Op, prior: Option<Raw>, legacy: bool, inp: Input, e: ByokError)
    requires !op.Reencrypt? && prior.Some? && Open(m, prior.value, op.tenant, op.provider) == Err(e)
    ensures Because(m, op, prior, legacy, inp, e)
  {
  }

  lemma AuthorizedRefuses(m: Manager, op: Op, prior: Option<Raw>, legacy: bool, inp: Input)
    requires !op.Reencrypt? && prior.Some?
    requires OpenAuthorized(m, prior.value, op.tenant, op.provider, op.actor, op.delegated).Err?
    ensures Because(m, op, prior, legacy, inp,
                    OpenAuthorized(m, prior.value, op.tenant, op.provider, op.actor, op.delegated).error)
  {
    var found := Open(m, prior.value, op.tenant, op.provider);
    if found.Err? {
      OpenRefuses(m, op, prior, legacy, inp, found.error);
    }
  }

  lemma PrepareRefuses(m: Manager, op: Op, prior: Option<Raw>, legacy: bool, inp: Input)
    requires !op.Reencrypt? && Prepare(m, op, prior, legacy).Err? && Prepare(m, op, prior, legacy).error.Reject?
    ensures Because(m, op, prior, legacy, inp, Prepare(m, op, prior, legacy).error.error)
  {
    if prior.Some? && OpenAuthorized(m, prior.value, op.tenant, op.provider, op.actor, op.delegated).Err? {
      AuthorizedRefuses(m, op, prior, legacy, inp);
    }
  }

  lemma CompleteRefuses(m: Manager, op: Op, plan: Plan, prior: Option<Raw>, legacy: bool, inp: Input)
    requires m.WellConfigured() && !op.Reencrypt? && PlanFor(op, plan, prior) && Complete(m, op, plan, inp).Reject?
    ensures Because(m, op, prior, legacy, inp, Complete(m, op, plan, inp).error)
  {
    if op.StoreKey? || op.RotateKey? {
      StripIsIdempotent(op.apiKey);
    }
  }

  lemma RefusedBecause(m: Manager, op: Op, prior: Option<Raw>, legacy: bool, inp: Input)
    requires m.WellConfigured() && !op.Reencrypt? && Decide(m, op, prior, legacy, inp).Reject?
    ensures Because(m, op, prior, legacy, inp, Decide(m, op, prior, legacy, inp).error)
  {
    if Prepare(m, op, prior, legacy).Ok? {
      PreparePlansForPrior(m, op, prior, legacy);
      CompleteRefuses(m, op, Prepare(m, op, prior, legacy).value, prior, legacy, inp);
    } else {
      PrepareRefuses(m, op, prior, legacy, inp);
    }
  }

  /** What is answered without a write: that there is nothing to delete or to migrate. */
  lemma AnsweredWithoutWrite(m: Manager, op: Op, prior: Option<Raw>, legacy: bool, inp: Input)
    requires m.WellConfigured() && Decide(m, op, prior, legacy, inp).Finish?
    ensures match Decide(m, op, prior, legacy, inp).answer
            case Deleted(existed) => op.DeleteKey? && prior.None? && !legacy && !existed
            case Missing => op.Reencrypt? && prior.None?
            case AlreadyCurrent => op.Reencrypt? && prior.Some? && Content(prior.value).Some?
                                   && Content(prior.value).value.kid == m.keyId
            case _ => false
  {
    if op.Reencrypt? && prior.Some? && Claimed(prior.value).Ok? {
      var claim := Claimed(prior.value).value;
      if Open(m, prior.value, claim.0, claim.1).Ok? {
        OpenIsContent(m, prior.value, claim.0, claim.1);
      }
    }
  }

  // ----- over whole runs -----

  /** The last commit on a slot. */
  function LastOn(log: seq<Entry>, key: SlotName): Option<Entry> {
    if log == [] then None
    else if Target(log[|log| - 1].op) == key then Some(log[|log| - 1])
    else LastOn(log[..|log| - 1], key)
  }

  /** A slot is as its last commit left it, and as it was at first if there was none. */
  ghost predicate LeftByLast(records: Records, w: World, key: SlotName) {
    match LastOn(w.log, key)
    case None => Lookup(w.records, key) == Lookup(records, key)
    case Some(e) => Leaves(e, Lookup(w.records, key))
  }

  /** What a step that commits adds to the log, and what it writes. */
  lemma CommitAdds(w: World, e: Event) returns (x: Entry, v: Option<Raw>)
    requires Step(w, e).log != w.log
    ensures Step(w, e).log == w.log + [x] && Step(w, e).records == PutRaw(w.records, Target(x.op), v)
    ensures Lookup(w.records, Target(x.op)) == x.before && Leaves(x, v)
  {
    var p := w.busy[e.actor];
    var (used, d) := Commitment(p, e.inp);
    x, v := Entry(p.m, p.op, used, p.stage.prior, d.answer), d.value;
    DecideLeaves(p.m, p.op, p.stage.prior, p.stage.legacy, used);
  }

  lemma LastMore(log: seq<Entry>, x: Entry, key: SlotName)
    ensures LastOn(log + [x], key) == if Target(x.op) == key then Some(x) else LastOn(log, key)
  {
    assert (log + [x])[..|log|] == log;
  }

  lemma LookupPut(records: Records, name: SlotName, v: Option<Raw>, key: SlotName)
    ensures Lookup(PutRaw(records, name, v), key) == if key == name then v else Lookup(records, key)
  {
  }

  lemma EntryLeaves(records: Records, w: World, w': World, x: Entry, v: Option<Raw>, key: SlotName)
    requires LeftByLast(records, w, key) && Leaves(x, v)
    requires w'.log == w.log + [x] && w'.records == PutRaw(w.records, Target(x.op), v)
    ensures LeftByLast(records, w', key)
  {
    LastMore(w.log, x, key);
    LookupPut(w.records, Target(x.op), v, key);
  }

  lemma StepLeaves(records: Records, w: World, e: Event, key: SlotName)
    requires LeftByLast(records, w, key)
    ensures LeftByLast(records, Step(w, e), key)
  {
    OnlyCommitsWrite(w, e);
    if Step(w, e).log != w.log {
      var x, v := CommitAdds(w, e);
      EntryLeaves(records, w, Step(w, e), x, v, key);
    }
  }

  /**
    What every slot holds after every run: what the last committed operation on it means. Revoked if that was a
    revocation, and otherwise as before; active with the stripped new credential if it was a store or a rotation;
    changed in nothing but what is known of its validity if it was a validation; gone if it was a delete.
   */
  lemma {:induction false} LastCommitDecides(records: Records, probed: set<(Provider, string)>, es: seq<Event>,
                                             key: SlotName)
    ensures LeftByLast(records, Run(Fresh(records, probed), es), key)
  {
    if es != [] {
      LastCommitDecides(records, probed, es[..|es| - 1], key);
      StepLeaves(records, Run(Fresh(records, probed), es[..|es| - 1]), es[|es| - 1], key);
    }
  }

  /** The slot holds a revoked record with this credential. */
  predicate HoldsRevoked(records: Records, key: SlotName, apiKey: string) {
    && key in records && Content(records[key]).Some?
    && Content(records[key]).value.record.status == RevokedStatus
    && Content(records[key]).value.record.apiKey == apiKey
  }

  /** From position `n` on, nobody stores, rotates or deletes on the slot. */
  predicate LeftRevoked(log: seq<Entry>, n: nat, key: SlotName) {
    forall i :: n <= i < |log| && Target(log[i].op) == key ==>
      log[i].op.ValidateStoredKey? || log[i].op.RevokeKey? || log[i].op.Reencrypt?
  }

  predicate NoneValidated(log: seq<Entry>, n: nat, key: SlotName) {
    forall i :: n <= i < |log| && Target(log[i].op) == key ==> !log[i].op.ValidateStoredKey?
  }

  lemma EntryKeepsRevoked(x: Entry, v: Option<Raw>, apiKey: string)
    requires Leaves(x, v) && (x.op.ValidateStoredKey? || x.op.RevokeKey? || x.op.Reencrypt?)
    requires x.before.Some? && Content(x.before.value).Some?
    requires Content(x.before.value).value.record.status == RevokedStatus
    requires Content(x.before.value).value.record.apiKey == apiKey
    ensures !x.op.ValidateStoredKey? && v.Some? && Content(v.value).Some?
    ensures Content(v.value).value.record.status == RevokedStatus && Content(v.value).value.record.apiKey == apiKey
  {
  }

  lemma StepKeepsRevoked(w: World, e: Event, key: SlotName, apiKey: string, n: nat)
    requires HoldsRevoked(w.records, key, apiKey) && n <= |w.log| && NoneValidated(w.log, n, key)
    requires LeftRevoked(Step(w, e).log, n, key)
    ensures HoldsRevoked(Step(w, e).records, key, apiKey) && NoneValidated(Step(w, e).log, n, key)
  {
    OnlyCommitsWrite(w, e);
    if Step(w, e).log != w.log {
      var x, v := CommitAdds(w, e);
      assert Step(w, e).log[|w.log|] == x;
      if Target(x.op) == key {
        EntryKeepsRevoked(x, v, apiKey);
      }
    }
  }

  /**
    Over any stretch of any run: a revoked credential stays revoked, whatever validations and migrations race
    it, until somebody stores, rotates or deletes; and until then no validation of it is ever committed.
   */
  lemma {:induction false} RevokedStaysRevoked(w: World, es: seq<Event>, key: SlotName, apiKey: string)
    requires HoldsRevoked(w.records, key, apiKey) && LeftRevoked(Run(w, es).log, |w.log|, key)
    ensures |w.log| <= |Run(w, es).log| && HoldsRevoked(Run(w, es).records, key, apiKey)
    ensures NoneValidated(Run(w, es).log, |w.log|, key)
  {
    if es != [] {
      var front, last := es[..|es| - 1], es[|es| - 1];
      var v := Run(w, front);
      OnlyCommitsWrite(v, last);
      LogGrows(w, front);
      assert forall i :: 0 <= i < |v.log| ==> v.log[i] == Step(v, last).log[i];
      RevokedStaysRevoked(w, front, key, apiKey);
      StepKeepsRevoked(v, last, key, apiKey, |w.log|);
    }
  }

  lemma {:induction false} LogGrows(w: World, es: seq<Event>)
    ensures w.log <= Run(w, es).log
  {
    if es != [] {
      LogGrows(w, es[..|es| - 1]);
      OnlyCommitsWrite(Run(w, es[..|es| - 1]), es[|es| - 1]);
    }
  }

  // ----- what a caller can rely on -----

  /** What a call that wrote has done: it found its slot as it had read it, and changed that slot only. */
  ghost predicate Wrote(m: Manager, op: Op, waits: Waits, inp: Input, records: Records, answer: Answer) {
    && Lookup(waits.atCommit, Target(op)) == Prior(op, waits)
    && Leaves(Entry(m, op, inp, Prior(op, waits), answer), Lookup(records, Target(op)))
    && forall other: SlotName :: other != Target(op) ==> Lookup(records, other) == Lookup(waits.atCommit, other)
  }

  /** The answers of a call that had nothing to write. */
  predicate NothingToDo(answer: Answer) {
    answer == Deleted(false) || answer == Missing || answer == AlreadyCurrent
  }

  lemma NothingToDoIsFinal(m: Manager, op: Op, prior: Option<Raw>, legacy: bool, inp: Input)
    requires m.WellConfigured()
    ensures var d := Decide(m, op, prior, legacy, inp);
            && (d.Finish? ==> NothingToDo(d.answer)) && (d.Put? ==> !NothingToDo(d.answer))
            && (d.Reject? ==> d.error != Conflict)
  {
    if Decide(m, op, prior, legacy, inp).Put? {
      DecideLeaves(m, op, prior, legacy, inp);
    } else if Decide(m, op, prior, legacy, inp).Finish? {
      AnsweredWithoutWrite(m, op, prior, legacy, inp);
    } else if !op.Reencrypt? {
      RefusedBecause(m, op, prior, legacy, inp);
    }
  }

  /**
    What the result of a call tells its caller, whatever others do at its waits. A normal answer, unless it says
    that there was nothing to do, means that the slot holds what the operation means and nothing else changed; a
    conflict means that the operation was due but its slot had changed; an operation that is due and finds its
    slot unchanged succeeds.
   */
  lemma CallMeans(m: Manager, op: Op, waits: Waits, inp: Input, start: Records)
    requires m.WellConfigured()
    ensures var (records, r) := Outcome(m, op, waits, inp, start);
            var due := MayWrite(m, op, Prior(op, waits), FoundOldName(op, waits), inp);
            && (r.Ok? && !NothingToDo(r.value) ==> due && Wrote(m, op, waits, inp, records, r.value))
            && (r == Err(Conflict) <==> due && Lookup(waits.atCommit, Target(op)) != Prior(op, waits))
            && (due && Lookup(waits.atCommit, Target(op)) == Prior(op, waits) ==> r.Ok? && !NothingToDo(r.value))
  {
    var prior, legacy := Prior(op, waits), FoundOldName(op, waits);
    var d := Decide(m, op, prior, legacy, inp);
    WritesExactlyWhenItMay(m, op, prior, legacy, inp);
    NothingToDoIsFinal(m, op, prior, legacy, inp);
    if d.Put? {
      DecideLeaves(m, op, prior, legacy, inp);
      SwapWrites(waits.atCommit, Target(op), prior, d.value, d.answer);
    }
  }

  lemma SwapWrites(at: Records, key: SlotName, prior: Option<Raw>, value: Option<Raw>, answer: Answer)
    ensures var (records, r) := Swap(at, key, prior, value, answer);
            if Lookup(at, key) == prior then
              && r == Ok(answer) && Lookup(records, key) == value
              && forall other: SlotName :: other != key ==> Lookup(records, other) == Lookup(at, other)
            else r == Err(Conflict) && records == at
  {
  }
}
