/**
  Values of the credential store: slot names, stored text, sealing and opening, and what every
  lifecycle operation decides from what it has read.

  Encryption is ideal (the authenticated encryption and decryption functions of NIST SP 800-38D,
  sections 7.1 and 7.2): a sealed payload opens under the key and the header it was sealed with
  and under nothing else. SHA-256 is an injective naming of tenants.
 */
module Byok {
  import opened Wrappers

  // ----- names -----

  /** `DigestOf(t)` is the tenant id that reads `v1:` followed by the hexadecimal digest of `t`. */
  datatype TenantId = Named(name: string) | DigestOf(tenant: TenantId)

  const NO_TENANT := Named("")

  /** `Slot` is `byok:v1:<digest>:<provider>`, `OldSlot` is `byok:<tenant>:<provider>`. */
  datatype SlotName =
    | Slot(tenant: TenantId, provider: Provider)
    | OldSlot(name: string, provider: Provider)
    | Foreign(name: string)

  function StorageKey(tenant: TenantId, provider: Provider): SlotName {
    Slot(tenant, provider)
  }

  /** The name the old layout used. For a tenant called `v1:<digest of u>` it spells `u`'s new name. */
  function LegacyKey(tenant: TenantId, provider: Provider): SlotName {
    match tenant
    case Named(n) => OldSlot(n, provider)
    case DigestOf(u) => Slot(u, provider)
  }

  /** A provider name, lower-cased and trimmed; `Other` is one that is not supported. */
  datatype Provider = OpenAI | Gemini | Anthropic | Groq | DeepSeek | OpenRouter | Other(name: string)

  // ----- errors -----

  datatype ByokError =
    | IdentityRequired
    | UnsupportedProvider
    | InvalidKey
    | LegacyRecord
    | RecordVersion
    | RecordCorrupt
    | KeyRetired
    | KeyUnknown
    | OwnerRequired
    | NotConfigured
    | Conflict
    | Revoked
    | ProviderRejected
    | ProviderUnavailable

  // ----- records and stored text -----

  datatype Status = Active | RevokedStatus | UnknownStatus

  datatype Validation = Untested | Valid | Invalid | Unavailable

  datatype Record = Record(
    apiKey: string,
    owner: string,
    status: Status,
    createdAt: Option<int>,
    updatedAt: Option<int>,
    lastValidatedAt: Option<int>,
    validation: Option<Validation>)

  datatype Header = Header(kid: string, tenant: TenantId, provider: Provider, revision: int)

  datatype Plain = NotARecord | Rec(record: Record)

  /** `Undecodable` is text that is no base64, or bytes that no key authenticates. */
  datatype Payload =
    | Undecodable
    | Sealed(key: int, nonce: int, plain: Plain, header: Header)

  datatype Version = NoVersion | VersionOne | OtherVersion

  /** The remaining members of a stored object: exactly those of an envelope, well typed, or not. */
  datatype Body = Exact(kid: string, revision: int, payload: Payload) | OtherFields

  datatype Raw =
    | NotJson
    | NotObject
    | Object(version: Version, tenant: Option<TenantId>, provider: Option<Provider>, body: Body)

  datatype Opened = Opened(record: Record, revision: int, kid: string)

  // ----- a manager's keys -----

  datatype Manager = Manager(keyId: string, keys: map<string, int>, retired: set<string>) {
    /** What the constructor insists on. */
    predicate WellConfigured() {
      && keyId in keys
      && keys.Keys !! retired
      && forall k, l :: k in keys && l in keys && keys[k] == keys[l] ==> k == l
    }

    function Key(kid: string): Result<int, ByokError> {
      if kid in retired then Err(KeyRetired)
      else if kid !in keys then Err(KeyUnknown)
      else Ok(keys[kid])
    }

    /** The manager that is left once every previous key has been retired. */
    function OnlyCurrent(): Manager
      requires WellConfigured()
    {
      Manager(keyId, map[keyId := keys[keyId]], retired + keys.Keys - {keyId})
    }
  }

  function Seal(m: Manager, record: Record, tenant: TenantId, provider: Provider, revision: int, nonce: int): Raw
    requires m.WellConfigured()
  {
    Object(VersionOne, Some(tenant), Some(provider),
           Exact(m.keyId, revision,
                 Sealed(m.keys[m.keyId], nonce, Rec(record), Header(m.keyId, tenant, provider, revision))))
  }

  function Open(m: Manager, raw: Raw, tenant: TenantId, provider: Provider): Result<Opened, ByokError> {
    if raw.NotJson? then Err(RecordCorrupt)
    else if raw.NotObject? || raw.version.NoVersion? then Err(LegacyRecord)
    else if raw.version.OtherVersion? then Err(RecordVersion)
    else if raw.body.OtherFields? || raw.tenant != Some(tenant) || raw.provider != Some(provider)
      then Err(RecordCorrupt)
    else if raw.body.revision < 1 then Err(RecordCorrupt)
    else
      match m.Key(raw.body.kid)
      case Err(e) => Err(e)
      case Ok(key) =>
        match raw.body.payload
        case Undecodable => Err(RecordCorrupt)
        case Sealed(k, _, plain, header) =>
          if k != key || header != Header(raw.body.kid, tenant, provider, raw.body.revision) then Err(RecordCorrupt)
          else if plain.NotARecord? || plain.record.status.UnknownStatus? then Err(RecordCorrupt)
          else Ok(Opened(plain.record, raw.body.revision, raw.body.kid))
  }

  /** What a stored text holds, whoever may open it. */
  function Content(raw: Raw): Option<Opened> {
    if raw.Object? && raw.version.VersionOne? && raw.tenant.Some? && raw.provider.Some? && raw.body.Exact?
       && raw.body.revision >= 1 && raw.body.payload.Sealed?
       && raw.body.payload.header == Header(raw.body.kid, raw.tenant.value, raw.provider.value, raw.body.revision)
       && raw.body.payload.plain.Rec? && !raw.body.payload.plain.record.status.UnknownStatus?
    then Some(Opened(raw.body.payload.plain.record, raw.body.revision, raw.body.kid))
    else None
  }

  /** Sealing and opening are inverse for every manager that still holds the sealing key, and no other opens it. */
  lemma SealThenOpen(m: Manager, reader: Manager, r: Record, t: TenantId, p: Provider, t2: TenantId, p2: Provider,
                     revision: int, nonce: int)
    requires m.WellConfigured() && revision >= 1 && !r.status.UnknownStatus?
    ensures var back := Open(reader, Seal(m, r, t, p, revision, nonce), t2, p2);
            back == Ok(Opened(r, revision, m.keyId))
            <==> t2 == t && p2 == p && reader.Key(m.keyId) == Ok(m.keys[m.keyId])
    ensures Content(Seal(m, r, t, p, revision, nonce)) == Some(Opened(r, revision, m.keyId))
  {
  }

  /** A stored text opens for one slot only, and to the same content for every manager that can open it. */
  lemma OpenIsContent(m: Manager, raw: Raw, t: TenantId, p: Provider)
    requires Open(m, raw, t, p).Ok?
    ensures Content(raw) == Some(Open(m, raw, t, p).value)
    ensures raw.tenant == Some(t) && raw.provider == Some(p)
  {
  }

  // ----- credential text -----

  /** The white space that `str.strip` removes. */
  predicate IsSpace(c: char) {
    || '\t' <= c <= '\r'
    || '\U{1c}' <= c <= ' '
    || c == '\U{85}' || c == '\U{a0}' || c == '\U{1680}'
    || '\U{2000}' <= c <= '\U{200a}'
    || c == '\U{2028}' || c == '\U{2029}' || c == '\U{202f}' || c == '\U{205f}' || c == '\U{3000}'
  }

  /** The first position from `i` on that holds no space. */
  function SkipSpaces(s: string, i: nat): (r: nat)
    requires i <= |s|
    ensures i <= r <= |s|
    ensures r < |s| ==> !IsSpace(s[r])
    decreases |s| - i
  {
    if i < |s| && IsSpace(s[i]) then SkipSpaces(s, i + 1) else i
  }

  /** The end of `s[lo..hi]` once the spaces at its end are gone. */
  function DropSpaces(s: string, lo: nat, hi: nat): (r: nat)
    requires lo <= hi <= |s|
    ensures lo <= r <= hi
    ensures lo < r ==> !IsSpace(s[r - 1])
    decreases hi
  {
    if lo < hi && IsSpace(s[hi - 1]) then DropSpaces(s, lo, hi - 1) else hi
  }

  /** `s.strip()`. */
  function Strip(s: string): string {
    s[SkipSpaces(s, 0)..DropSpaces(s, SkipSpaces(s, 0), |s|)]
  }

  lemma StripIsIdempotent(s: string)
    ensures Strip(Strip(s)) == Strip(s)
  {
    var a := SkipSpaces(s, 0);
    var r := Strip(s);
    if r != "" {
      assert r[0] == s[a] && r[|r| - 1] == s[DropSpaces(s, a, |s|) - 1];
      assert SkipSpaces(r, 0) == 0;
    }
  }

  predicate AllSpaces(s: string) {
    forall i :: 0 <= i < |s| ==> IsSpace(s[i])
  }

  lemma {:induction false} SkippedAreSpaces(s: string, i: nat)
    requires i <= |s|
    ensures AllSpaces(s[i..SkipSpaces(s, i)])
    decreases |s| - i
  {
    if i < |s| && IsSpace(s[i]) {
      SkippedAreSpaces(s, i + 1);
      assert s[i..SkipSpaces(s, i)] == [s[i]] + s[i + 1..SkipSpaces(s, i + 1)];
    }
  }

  lemma {:induction false} DroppedAreSpaces(s: string, lo: nat, hi: nat)
    requires lo <= hi <= |s|
    ensures AllSpaces(s[DropSpaces(s, lo, hi)..hi])
    decreases hi
  {
    if lo < hi && IsSpace(s[hi - 1]) {
      DroppedAreSpaces(s, lo, hi - 1);
      assert s[DropSpaces(s, lo, hi)..hi] == s[DropSpaces(s, lo, hi - 1)..hi - 1] + [s[hi - 1]];
    }
  }

  /** Stripping takes away nothing but white space, and leaves none at either end. */
  lemma StripTrims(s: string) returns (front: string, back: string)
    ensures s == front + Strip(s) + back && AllSpaces(front) && AllSpaces(back)
    ensures Strip(s) != "" ==> !IsSpace(Strip(s)[0]) && !IsSpace(Strip(s)[|Strip(s)| - 1])
  {
    var a := SkipSpaces(s, 0);
    var b := DropSpaces(s, a, |s|);
    SkippedAreSpaces(s, 0);
    DroppedAreSpaces(s, a, |s|);
    front, back := s[..a], s[b..];
    CutTwice(s, a, b);
  }

  lemma CutTwice(s: string, a: nat, b: nat)
    requires a <= b <= |s|
    ensures s == s[..a] + s[a..b] + s[b..] && s[0..a] == s[..a] && s[b..|s|] == s[b..]
  {
  }

  predicate GoodLength(key: string) {
    8 <= |key| <= 4096
  }

  function Mask(key: string): string {
    if key == "" then "" else "********"
  }

  // ----- operations -----

  datatype ProbeAnswer = Accepted | Refused | Unreachable

  /** Everything an operation takes from outside the store. */
  datatype Input = Input(probe: ProbeAnswer, validatedAt: int, now: int, nonce: int)

  datatype Op =
    | StoreKey(tenant: TenantId, provider: Provider, apiKey: string, validate: bool, actor: Option<string>,
            delegated: bool)
    | RotateKey(tenant: TenantId, provider: Provider, apiKey: string, validate: bool, actor: Option<string>,
            delegated: bool)
    | ValidateStoredKey(tenant: TenantId, provider: Provider, actor: Option<string>, delegated: bool)
    | RevokeKey(tenant: TenantId, provider: Provider, actor: Option<string>, delegated: bool)
    | DeleteKey(tenant: TenantId, provider: Provider, actor: Option<string>, delegated: bool)
    | Reencrypt(key: SlotName)

  datatype PublicView = PublicView(
    tenant: TenantId, provider: Provider, maskedKey: string, configured: bool,
    createdAt: Option<int>, updatedAt: Option<int>,
    lastValidatedAt: Option<int>, validation: Option<Validation>)

  datatype Answer =
    | View(view: PublicView)
    | Verdict(valid: bool, error: Option<ByokError>)
    | Deleted(existed: bool)
    | Missing
    | AlreadyCurrent
    | Migrated

  /** What an operation does once it has read: fail, answer without writing, or try to write. */
  datatype Decision =
    | Reject(error: ByokError)
    | Finish(answer: Answer)
    | Put(value: Option<Raw>, answer: Answer)

  function Public(t: TenantId, p: Provider, r: Record): PublicView {
    PublicView(t, p, Mask(r.apiKey), r.status.Active?, r.createdAt, r.updatedAt, r.lastValidatedAt, r.validation)
  }

  predicate Authorized(owner: string, actor: Option<string>, delegated: bool) {
    actor.None? || actor.value == owner || delegated
  }

  function Target(op: Op): SlotName {
    if op.Reencrypt? then op.key else StorageKey(op.tenant, op.provider)
  }

  /** The part of an operation after its reads and checks, before any call to the provider. */
  datatype Plan =
    | StorePlan(existing: Option<Opened>, clean: string)
    | RotatePlan(current: Opened, clean: string)
    | ValidatePlan(current: Opened)
    | RevokePlan(current: Opened)
    | DeletePlan(current: Opened)
    | ReencryptPlan(current: Opened)

  /** `_get_raw_val` as far as its errors go: the identity, then the old name when the slot is empty. */
  function ReadError(tenant: TenantId, prior: Option<Raw>, legacy: bool): Option<ByokError> {
    if tenant == NO_TENANT then Some(IdentityRequired)
    else if prior.None? && legacy then Some(LegacyRecord)
    else None
  }

  function OpenAuthorized(m: Manager, raw: Raw, t: TenantId, p: Provider, actor: Option<string>, delegated: bool)
    : Result<Opened, ByokError>
  {
    match Open(m, raw, t, p)
    case Err(e) => Err(e)
    case Ok(o) => if Authorized(o.record.owner, actor, delegated) then Ok(o) else Err(OwnerRequired)
  }

  /** `_load`. */
  function Load(m: Manager, t: TenantId, p: Provider, actor: Option<string>, delegated: bool,
                prior: Option<Raw>, legacy: bool): Result<Opened, ByokError>
  {
    var e := ReadError(t, prior, legacy);
    if e.Some? then Err(e.value)
    else if prior.None? then Err(NotConfigured)
    else OpenAuthorized(m, prior.value, t, p, actor, delegated)
  }

  /** The slot a stored text claims for itself, as the migration reads it. */
  function Claimed(raw: Raw): Result<(TenantId, Provider), ByokError> {
    if !raw.Object? || raw.tenant.None? || raw.provider.None? then Err(RecordCorrupt)
    else if raw.provider.value.Other? then Err(UnsupportedProvider)
    else if raw.tenant.value == NO_TENANT then Err(IdentityRequired)
    else Ok((raw.tenant.value, raw.provider.value))
  }

  /** `store_key` up to its call to the provider. */
  function PrepareStore(m: Manager, op: Op, prior: Option<Raw>, legacy: bool): Result<Plan, Decision>
    requires op.StoreKey?
  {
    var clean := Strip(op.apiKey);
    var e := ReadError(op.tenant, prior, legacy);
    if op.provider.Other? then Err(Reject(UnsupportedProvider))
    else if !GoodLength(clean) then Err(Reject(InvalidKey))
    else if e.Some? then Err(Reject(e.value))
    else if prior.None? then Ok(StorePlan(None, clean))
    else
      match OpenAuthorized(m, prior.value, op.tenant, op.provider, op.actor, op.delegated)
      case Err(e) => Err(Reject(e))
      case Ok(o) => Ok(StorePlan(Some(o), clean))
  }

  /** The operations that need an existing record, once `_load` has given it to them. */
  function PrepareLoaded(op: Op, o: Opened): Result<Plan, Decision>
    requires !op.StoreKey? && !op.Reencrypt?
  {
    match op
    case RotateKey(_, _, key, _, _, _) =>
      if GoodLength(Strip(key)) then Ok(RotatePlan(o, Strip(key))) else Err(Reject(InvalidKey))
    case ValidateStoredKey(_, _, _, _) =>
      if o.record.status.Active? then Ok(ValidatePlan(o)) else Err(Reject(Revoked))
    case RevokeKey(_, _, _, _) => Ok(RevokePlan(o))
    case DeleteKey(_, _, _, _) => Ok(DeletePlan(o))
  }

  /** One record of a migration batch. */
  function PrepareReencrypt(m: Manager, key: SlotName, prior: Option<Raw>): Result<Plan, Decision> {
    if prior.None? then Err(Finish(Missing))
    else
      match Claimed(prior.value)
      case Err(e) => Err(Reject(e))
      case Ok(claim) =>
        if StorageKey(claim.0, claim.1) != key then Err(Reject(RecordCorrupt))
        else
          match Open(m, prior.value, claim.0, claim.1)
          case Err(e) => Err(Reject(e))
          case Ok(o) => if o.kid == m.keyId then Err(Finish(AlreadyCurrent)) else Ok(ReencryptPlan(o))
  }

  function Prepare(m: Manager, op: Op, prior: Option<Raw>, legacy: bool): Result<Plan, Decision> {
    if op.StoreKey? then PrepareStore(m, op, prior, legacy)
    else if op.Reencrypt? then PrepareReencrypt(m, op.key, prior)
    else if op.provider.Other? then Err(Reject(UnsupportedProvider))
    else
      match Load(m, op.tenant, op.provider, op.actor, op.delegated, prior, legacy)
      case Ok(o) => PrepareLoaded(op, o)
      case Err(e) => Err(if op.DeleteKey? && e == NotConfigured then Finish(Deleted(false)) else Reject(e))
  }

  /** The credential a plan sends to the provider, if it calls the provider at all. */
  function Asks(op: Op, plan: Plan): Option<string> {
    match plan
    case StorePlan(_, clean) =>
      if op.StoreKey? && op.validate && GoodLength(Strip(clean)) then Some(Strip(clean)) else None
    case RotatePlan(_, clean) =>
      if op.RotateKey? && op.validate && GoodLength(Strip(clean)) then Some(Strip(clean)) else None
    case ValidatePlan(o) => if GoodLength(Strip(o.record.apiKey)) then Some(Strip(o.record.apiKey)) else None
    case _ => None
  }

  /** `validate_key`: a credential of the wrong length is turned down without asking anybody. */
  function ValidateKey(key: string, probe: ProbeAnswer): Option<ByokError> {
    if !GoodLength(Strip(key)) then Some(InvalidKey)
    else
      match probe
      case Accepted => None
      case Refused => Some(ProviderRejected)
      case Unreachable => Some(ProviderUnavailable)
  }

  /** `_validate`: the two validation fields of a record that is about to be written. */
  function ValidationFields(key: string, enabled: bool, inp: Input): Result<(Option<int>, Validation), ByokError> {
    if !enabled then Ok((None, Untested))
    else
      match ValidateKey(key, inp.probe)
      case Some(e) => Err(e)
      case None => Ok((Some(inp.validatedAt), Valid))
  }

  function WriteRecord(m: Manager, t: TenantId, p: Provider, r: Record, revision: int, inp: Input, answer: Answer)
    : Decision
    requires m.WellConfigured()
  {
    Put(Some(Seal(m, r, t, p, revision, inp.nonce)), answer)
  }

  /** The plan is one for this kind of operation. */
  predicate Fits(op: Op, plan: Plan) {
    && (plan.StorePlan? ==> op.StoreKey?) && (plan.RotatePlan? ==> op.RotateKey?)
    && (if plan.ReencryptPlan? then op.Reencrypt? && op.key.Slot? else !op.Reencrypt?)
  }

  function Complete(m: Manager, op: Op, plan: Plan, inp: Input): Decision
    requires m.WellConfigured()
    requires Fits(op, plan)
  {
    match plan
    case StorePlan(existing, clean) => (
      match ValidationFields(clean, op.validate, inp)
      case Err(e) => Reject(e)
      case Ok(v) =>
        var owner := if existing.Some? then existing.value.record.owner else op.actor.GetOr("");
        var created := if existing.Some? && existing.value.record.createdAt.Some? then existing.value.record.createdAt
                       else Some(inp.now);
        var revision := if existing.Some? then existing.value.revision + 1 else 1;
        var r := Record(clean, owner, Active, created, Some(inp.now), v.0, Some(v.1));
        WriteRecord(m, op.tenant, op.provider, r, revision, inp, View(Public(op.tenant, op.provider, r)))
    )
    case RotatePlan(o, clean) => (
      match ValidationFields(clean, op.validate, inp)
      case Err(e) => Reject(e)
      case Ok(v) =>
        var r := o.record.(apiKey := clean, status := Active, updatedAt := Some(inp.now),
          lastValidatedAt := v.0, validation := Some(v.1));
        WriteRecord(m, op.tenant, op.provider, r, o.revision + 1, inp, View(Public(op.tenant, op.provider, r)))
    )
    case ValidatePlan(o) =>
      var error := ValidateKey(o.record.apiKey, inp.probe);
      var status := if error.None? then Valid else if error.value == ProviderUnavailable then Unavailable else Invalid;
      var r := o.record.(lastValidatedAt := Some(inp.validatedAt), validation := Some(status));
      WriteRecord(m, op.tenant, op.provider, r, o.revision + 1, inp, Verdict(error.None?, error))
    case RevokePlan(o) =>
      var r := o.record.(status := RevokedStatus, updatedAt := Some(inp.now));
      WriteRecord(m, op.tenant, op.provider, r, o.revision + 1, inp, View(Public(op.tenant, op.provider, r)))
    case DeletePlan(_) => Put(None, Deleted(true))
    case ReencryptPlan(o) => WriteRecord(m, op.key.tenant, op.key.provider, o.record, o.revision + 1, inp, Migrated)
  }

  /** The whole operation as a function of what it read and of its inputs. */
  function Decide(m: Manager, op: Op, prior: Option<Raw>, legacy: bool, inp: Input): Decision
    requires m.WellConfigured()
  {
    match Prepare(m, op, prior, legacy)
    case Err(d) => d
    case Ok(plan) => Complete(m, op, plan, inp)
  }
}
