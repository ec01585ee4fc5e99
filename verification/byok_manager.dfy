/**
  The lifecycle operations as written, one statement after another. What others have made of the store
  each time a call resumes from a wait is an input; each method is shown to end, in store and result,
  exactly as `ByokCalls.Outcome` says, and so as a run of `ByokProtocol` does.
 */
module ByokManager {
  import opened Wrappers
  import opened Byok
  import opened ByokProtocol
  import opened ByokStorage
  import opened ByokCalls

  class BYOKManager {
    const m: Manager
    const store: MemoryStore

    constructor (m: Manager, store: MemoryStore)
      requires m.WellConfigured()
      ensures this.m == m && this.store == store
    {
      this.m := m;
      this.store := store;
    }

    /** Others run while this call waits. */
    method Resume(found: Records)
      modifies store`records
      ensures store.records == found
    {
      store.records := found;
    }

    /** `_get_raw_val`. */
    method GetRawVal(tenant: TenantId, provider: Provider, waits: Waits) returns (r: Result<Option<Raw>, ByokError>)
      modifies store`records
      ensures var prior := Lookup(waits.atRead, StorageKey(tenant, provider));
              match ReadError(tenant, prior, prior.None? && LegacyKey(tenant, provider) in waits.atOldName)
              case Some(e) => r == Err(e)
              case None => r == Ok(prior)
      ensures store.records == AfterReads(tenant, provider, waits, old(store.records))
    {
      if tenant == NO_TENANT {
        return Err(IdentityRequired);
      }
      Resume(waits.atRead);
      var raw := store.Get(StorageKey(tenant, provider));
      if raw.None? {
        Resume(waits.atOldName);
        var oldRaw := store.Get(LegacyKey(tenant, provider));
        if oldRaw.Some? {
          return Err(LegacyRecord);
        }
      }
      return Ok(raw);
    }

    /** `_load`. */
    method LoadRecord(tenant: TenantId, provider: Provider, actor: Option<string>, delegated: bool, waits: Waits)
      returns (r: Result<(Raw, Opened), ByokError>)
      modifies store`records
      ensures var prior := Lookup(waits.atRead, StorageKey(tenant, provider));
              match Load(m, tenant, provider, actor, delegated, prior,
                         prior.None? && LegacyKey(tenant, provider) in waits.atOldName)
              case Err(e) => r == Err(e)
              case Ok(o) => prior.Some? && r == Ok((prior.value, o))
      ensures store.records == AfterReads(tenant, provider, waits, old(store.records))
    {
      var raw := GetRawVal(tenant, provider, waits);
      if raw.Err? {
        return Err(raw.error);
      }
      if raw.value.None? {
        return Err(NotConfigured);
      }
      var found := Open(m, raw.value.value, tenant, provider);
      if found.Err? {
        return Err(found.error);
      }
      if actor.Some? && actor.value != found.value.record.owner && !delegated {
        return Err(OwnerRequired);
      }
      return Ok((raw.value.value, found.value));
    }

    /** `_commit`, and the answer that follows it. */
    method CommitRecord(tenant: TenantId, provider: Provider, prior: Option<Raw>, record: Option<Record>, revision: int,
                        nonce: int, answer: Answer, waits: Waits)
      returns (r: Result<Answer, ByokError>)
      requires m.WellConfigured()
      modifies store
      ensures var value := if record.Some? then Some(Seal(m, record.value, tenant, provider, revision, nonce))
           else None;
              (store.records, r) == Swap(waits.atCommit, StorageKey(tenant, provider), prior, value, answer)
      ensures store.commits
           == old(store.commits) + (if Lookup(waits.atCommit, StorageKey(tenant, provider)) == prior then 1 else 0)
    {
      var value := if record.Some? then Some(Seal(m, record.value, tenant, provider, revision, nonce)) else None;
      Resume(waits.atCommit);
      var done := store.Cas(StorageKey(tenant, provider), prior, value);
      r := if done then Ok(answer) else Err(Conflict);
    }

    /** `validate_key`; a credential of the wrong length is turned down without a wait. */
    method ValidateKey(key: string, inp: Input, waits: Waits) returns (error: Option<ByokError>)
      modifies store`records
      ensures error == Byok.ValidateKey(key, inp.probe)
      ensures store.records == if GoodLength(Strip(key)) then waits.atAsk else old(store.records)
    {
      var clean := Strip(key);
      if |clean| < 8 || |clean| > 4096 {
        return Some(InvalidKey);
      }
      Resume(waits.atAsk);
      match inp.probe {
        case Accepted => return None;
        case Refused => return Some(ProviderRejected);
        case Unreachable => return Some(ProviderUnavailable);
      }
    }

    /** `_validate`; the provider's answer and the clock come from outside. */
    method Validate(key: string, enabled: bool, inp: Input, waits: Waits)
      returns (r: Result<(Option<int>, Validation), ByokError>)
      modifies store`records
      ensures r == ValidationFields(key, enabled, inp)
      ensures store.records == if enabled && GoodLength(Strip(key)) then waits.atAsk else old(store.records)
    {
      if !enabled {
        return Ok((None, Untested));
      }
      var error := ValidateKey(key, inp, waits);
      if error.Some? {
        return Err(error.value);
      }
      return Ok((Some(inp.validatedAt), Valid));
    }

    /** The part of `store_key` that reads the slot. */
    method ReadExisting(op: Op, waits: Waits) returns (r: Result<(Option<Raw>, Option<Opened>), ByokError>)
      requires op.StoreKey? && !op.provider.Other? && GoodLength(Strip(op.apiKey))
      modifies store`records
      ensures match Prepared(m, op, waits)
              case Err(d) => r.Err? && d == Reject(r.error)
              case Ok(plan) => r.Ok? && r.value.0 == Prior(op, waits) && plan == StorePlan(r.value.1, Strip(op.apiKey))
      ensures store.records == AfterReads(op.tenant, op.provider, waits, old(store.records))
    {
      var raw := GetRawVal(op.tenant, op.provider, waits);
      if raw.Err? {
        return Err(raw.error);
      }
      if raw.value.None? {
        return Ok((None, None));
      }
      var o := Open(m, raw.value.value, op.tenant, op.provider);
      if o.Err? {
        return Err(o.error);
      }
      if op.actor.Some? && op.actor.value != o.value.record.owner && !op.delegated {
        return Err(OwnerRequired);
      }
      return Ok((raw.value, Some(o.value)));
    }

    /** The part of `store_key` that follows its reads. */
    method WriteKey(op: Op, prior: Option<Raw>, existing: Option<Opened>, clean: string, inp: Input, waits: Waits)
      returns (r: Result<Answer, ByokError>)
      requires m.WellConfigured() && op.StoreKey? && Prior(op, waits) == prior
      modifies store
      ensures Ends(op, StorePlan(existing, clean), inp, waits, old(store.records), old(store.commits), r)
    {
      var revision := if existing.Some? then existing.value.revision + 1 else 1;
      var validation := Validate(clean, op.validate, inp, waits);
      if validation.Err? {
        return Err(validation.error);
      }
      var owner := if existing.Some? then existing.value.record.owner else op.actor.GetOr("");
      var created := if existing.Some? && existing.value.record.createdAt.Some? then existing.value.record.createdAt
        else Some(inp.now);
      var record := Record(clean, owner, Active, created, Some(inp.now), validation.value.0, Some(validation.value.1));
      r := CommitRecord(op.tenant, op.provider, prior, Some(record), revision, inp.nonce,
        View(Public(op.tenant, op.provider, record)), waits);
    }

    /** How the rest of an operation ends, once it has its plan: from this store, with this count of writes. */
    ghost predicate Ends(op: Op, plan: Plan, inp: Input, waits: Waits, start: Records, commits: nat,
            r: Result<Answer, ByokError>)
      requires m.WellConfigured() && Fits(op, plan)
      reads store
    {
      var d := Complete(m, op, plan, inp);
      && (store.records, r) == Ending(d, op, waits, if Asks(op, plan).Some? then waits.atAsk else start)
      && store.commits == commits + (if d.Put? && Lookup(waits.atCommit, Target(op)) == Prior(op, waits) then 1 else 0)
    }

    /** How a whole operation ends. */
    ghost predicate EndsAs(op: Op, inp: Input, waits: Waits, start: Records, commits: nat, r: Result<Answer, ByokError>)
      requires m.WellConfigured()
      reads store
    {
      && (store.records, r) == Outcome(m, op, waits, inp, start)
      && store.commits == commits + (if Writes(m, op, waits, inp) then 1 else 0)
    }

    method StoreKey(tenant: TenantId, provider: Provider, apiKey: string, validate: bool, actor: Option<string>,
            delegated: bool,
                    inp: Input, waits: Waits)
      returns (r: Result<Answer, ByokError>)
      requires m.WellConfigured()
      modifies store
      ensures EndsAs(Op.StoreKey(tenant, provider, apiKey, validate, actor, delegated), inp, waits,
                  old(store.records), old(store.commits), r)
    {
      var op := Op.StoreKey(tenant, provider, apiKey, validate, actor, delegated);
      if provider.Other? {
        return Err(UnsupportedProvider);
      }
      var clean := Strip(apiKey);
      if !(8 <= |clean| <= 4096) {
        return Err(InvalidKey);
      }
      var read := ReadExisting(op, waits);
      if read.Err? {
        return Err(read.error);
      }
      var (prior, existing) := read.value;
      r := WriteKey(op, prior, existing, clean, inp, waits);
    }

    /** The part of `rotate_key` that follows its reads and checks. */
    method WriteRotated(op: Op, raw: Raw, o: Opened, clean: string, inp: Input, waits: Waits)
      returns (r: Result<Answer, ByokError>)
      requires m.WellConfigured() && op.RotateKey? && Prior(op, waits) == Some(raw)
      modifies store
      ensures Ends(op, RotatePlan(o, clean), inp, waits, old(store.records), old(store.commits), r)
    {
      var validation := Validate(clean, op.validate, inp, waits);
      if validation.Err? {
        return Err(validation.error);
      }
      var record := o.record.(apiKey := clean, status := Active, updatedAt := Some(inp.now),
        lastValidatedAt := validation.value.0, validation := Some(validation.value.1));
      r := CommitRecord(op.tenant, op.provider, Some(raw), Some(record), o.revision + 1, inp.nonce,
        View(Public(op.tenant, op.provider, record)), waits);
    }

    method RotateKey(tenant: TenantId, provider: Provider, newKey: string, validate: bool, actor: Option<string>,
            delegated: bool,
                     inp: Input, waits: Waits)
      returns (r: Result<Answer, ByokError>)
      requires m.WellConfigured()
      modifies store
      ensures EndsAs(Op.RotateKey(tenant, provider, newKey, validate, actor, delegated), inp, waits,
                  old(store.records), old(store.commits), r)
    {
      var op := Op.RotateKey(tenant, provider, newKey, validate, actor, delegated);
      if provider.Other? {
        return Err(UnsupportedProvider);
      }
      var loaded := LoadRecord(tenant, provider, actor, delegated, waits);
      if loaded.Err? {
        return Err(loaded.error);
      }
      var (raw, o) := loaded.value;
      var clean := Strip(newKey);
      if !(8 <= |clean| <= 4096) {
        return Err(InvalidKey);
      }
      assert Prepared(m, op, waits) == Ok(RotatePlan(o, clean));
      r := WriteRotated(op, raw, o, clean, inp, waits);
    }

    /** The part of `validate_stored_key` that follows its reads and checks. */
    method WriteVerdict(op: Op, raw: Raw, o: Opened, inp: Input, waits: Waits) returns (r: Result<Answer, ByokError>)
      requires m.WellConfigured() && op.ValidateStoredKey? && Prior(op, waits) == Some(raw)
      modifies store
      ensures Ends(op, ValidatePlan(o), inp, waits, old(store.records), old(store.commits), r)
    {
      var error := ValidateKey(o.record.apiKey, inp, waits);
      var record := o.record.(lastValidatedAt := Some(inp.validatedAt),
        validation := Some(if error.None? then Valid
                           else if error == Some(ProviderUnavailable) then Unavailable else Invalid));
      r := CommitRecord(op.tenant, op.provider, Some(raw), Some(record), o.revision + 1, inp.nonce,
        Verdict(error.None?, error), waits);
    }

    method ValidateStoredKey(tenant: TenantId, provider: Provider, actor: Option<string>, delegated: bool, inp: Input,
            waits: Waits)
      returns (r: Result<Answer, ByokError>)
      requires m.WellConfigured()
      modifies store
      ensures EndsAs(Op.ValidateStoredKey(tenant, provider, actor, delegated), inp, waits, old(store.records),
                  old(store.commits), r)
    {
      var op := Op.ValidateStoredKey(tenant, provider, actor, delegated);
      if provider.Other? {
        return Err(UnsupportedProvider);
      }
      var loaded := LoadRecord(tenant, provider, actor, delegated, waits);
      if loaded.Err? {
        return Err(loaded.error);
      }
      var (raw, o) := loaded.value;
      if o.record.status != Active {
        return Err(Revoked);
      }
      assert Prepared(m, op, waits) == Ok(ValidatePlan(o));
      r := WriteVerdict(op, raw, o, inp, waits);
    }

    method RevokeKey(tenant: TenantId, provider: Provider, actor: Option<string>, delegated: bool, inp: Input,
            waits: Waits)
      returns (r: Result<Answer, ByokError>)
      requires m.WellConfigured()
      modifies store
      ensures EndsAs(Op.RevokeKey(tenant, provider, actor, delegated), inp, waits, old(store.records),
                  old(store.commits), r)
    {
      var op := Op.RevokeKey(tenant, provider, actor, delegated);
      if provider.Other? {
        return Err(UnsupportedProvider);
      }
      var loaded := LoadRecord(tenant, provider, actor, delegated, waits);
      if loaded.Err? {
        return Err(loaded.error);
      }
      var (raw, o) := loaded.value;
      assert Prepared(m, op, waits) == Ok(RevokePlan(o));
      var record := o.record.(status := RevokedStatus, updatedAt := Some(inp.now));
      r := CommitRecord(tenant, provider, Some(raw), Some(record), o.revision + 1, inp.nonce,
        View(Public(tenant, provider, record)), waits);
    }

    method DeleteKey(tenant: TenantId, provider: Provider, actor: Option<string>, delegated: bool, inp: Input,
            waits: Waits)
      returns (r: Result<Answer, ByokError>)
      requires m.WellConfigured()
      modifies store
      ensures EndsAs(Op.DeleteKey(tenant, provider, actor, delegated), inp, waits, old(store.records),
                  old(store.commits), r)
    {
      var op := Op.DeleteKey(tenant, provider, actor, delegated);
      if provider.Other? {
        return Err(UnsupportedProvider);
      }
      var loaded := LoadRecord(tenant, provider, actor, delegated, waits);
      if loaded.Err? {
        if loaded.error == NotConfigured {
          return Ok(Deleted(false));
        }
        return Err(loaded.error);
      }
      var (raw, o) := loaded.value;
      assert Prepared(m, op, waits) == Ok(DeletePlan(o));
      r := CommitRecord(tenant, provider, Some(raw), None, o.revision + 1, inp.nonce, Deleted(true), waits);
    }
  }
}
