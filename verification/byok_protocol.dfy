/**
  Many actors on one credential store. Every operation is: read the slot, look under the old name
  when the slot is empty, perhaps ask the provider, then compare-and-swap. The steps of different
  actors interleave in any way; a step that does not apply in the current state changes nothing,
  so every sequence of events is a run.
 */
module ByokProtocol {
  import opened Wrappers
  import opened Byok

  type Records = map<SlotName, Raw>

  datatype Stage =
    | Started
    | Fetched(prior: Option<Raw>)
    | Checked(prior: Option<Raw>, legacy: bool)
    | Asked(prior: Option<Raw>, legacy: bool, probe: ProbeAnswer)

  datatype Pending = Pending(m: Manager, op: Op, stage: Stage)

  /** One successful compare-and-swap, with what it replaced. */
  datatype Entry = Entry(m: Manager, op: Op, inp: Input, before: Option<Raw>, answer: Answer)

  datatype World = World(
    records: Records,
    busy: map<nat, Pending>,
    probed: set<(Provider, string)>,  // every (provider, credential) the provider has accepted
    log: seq<Entry>)

  datatype Event =
    | Begin(actor: nat, m: Manager, op: Op)
    | Read(actor: nat)
    | ReadOldName(actor: nat)
    | Ask(actor: nat, answer: ProbeAnswer)
    | Commit(actor: nat, inp: Input)

  function PutRaw(records: Records, key: SlotName, value: Option<Raw>): Records {
    match value
    case None => records - {key}
    case Some(v) => records[key := v]
  }

  /** The credential a checked operation is about to send to the provider. */
  function Question(p: Pending): Option<string>
    requires p.stage.Checked?
  {
    match Prepare(p.m, p.op, p.stage.prior, p.stage.legacy)
    case Err(_) => None
    case Ok(plan) => Asks(p.op, plan)
  }

  predicate ReadyToCommit(p: Pending) {
    p.stage.Asked? || (p.stage.Checked? && Question(p).None?)
  }

  function Commitment(p: Pending, inp: Input): (Input, Decision)
    requires p.m.WellConfigured() && ReadyToCommit(p)
  {
    var used := if p.stage.Asked? then inp.(probe := p.stage.probe) else inp;
    (used, Decide(p.m, p.op, p.stage.prior, p.stage.legacy, used))
  }

  function AfterRead(w: World, p: Pending): Stage {
    var prior := Lookup(w.records, Target(p.op));
    if prior.Some? || p.op.Reencrypt? then Checked(prior, false) else Fetched(prior)
  }

  function Step(w: World, e: Event): World {
    match e
    case Begin(a, m, op) =>
      if a in w.busy || !m.WellConfigured() then w else w.(busy := w.busy[a := Pending(m, op, Started)])
    case Read(a) =>
      if a in w.busy && w.busy[a].stage.Started?
      then w.(busy := w.busy[a := w.busy[a].(stage := AfterRead(w, w.busy[a]))]) else w
    case ReadOldName(a) =>
      if a in w.busy && w.busy[a].stage.Fetched?
      then
        var p := w.busy[a];
        var occupied := !p.op.Reencrypt? && LegacyKey(p.op.tenant, p.op.provider) in w.records;
        w.(busy := w.busy[a := p.(stage := Checked(p.stage.prior, occupied))])
      else w
    case Ask(a, answer) =>
      if a in w.busy && w.busy[a].stage.Checked? && Question(w.busy[a]).Some?
      then
        var p := w.busy[a];
        var accepted := if answer.Accepted? && !p.op.Reencrypt? then {(p.op.provider, Question(p).value)} else {};
        w.(busy := w.busy[a := p.(stage := Asked(p.stage.prior, p.stage.legacy, answer))],
           probed := w.probed + accepted)
      else w
    case Commit(a, inp) =>
      if a in w.busy && w.busy[a].m.WellConfigured() && ReadyToCommit(w.busy[a])
      then CommitStep(w.(busy := w.busy - {a}), w.busy[a], inp)
      else w
  }

  function CommitStep(w: World, p: Pending, inp: Input): World
    requires p.m.WellConfigured() && ReadyToCommit(p)
  {
    var (used, d) := Commitment(p, inp);
    if d.Put? && Lookup(w.records, Target(p.op)) == p.stage.prior
    then w.(records := PutRaw(w.records, Target(p.op), d.value),
            log := w.log + [Entry(p.m, p.op, used, p.stage.prior, d.answer)])
    else w
  }

  function Run(w: World, es: seq<Event>): World {
    if es == [] then w else Step(Run(w, es[..|es| - 1]), es[|es| - 1])
  }

  function Fresh(records: Records, probed: set<(Provider, string)>): World {
    World(records, map[], probed, [])
  }

  // ----- one operation at a time -----

  /** The operation with the whole store to itself from its first read to its write. */
  function Alone(records: Records, e: Entry): Decision
    requires e.m.WellConfigured()
  {
    var occupied := !e.op.Reencrypt? && LegacyKey(e.op.tenant, e.op.provider) in records;
    Decide(e.m, e.op, Lookup(records, Target(e.op)), occupied, e.inp)
  }

  predicate Runnable(log: seq<Entry>) {
    forall i :: 0 <= i < |log| ==> log[i].m.WellConfigured()
  }

  /** The operations of a log, one after another; `Err` at the first one that would end differently. */
  function Serial(records: Records, log: seq<Entry>): Result<Records, nat>
    requires Runnable(log)
  {
    if log == [] then Ok(records)
    else
      match Serial(records, log[..|log| - 1])
      case Err(n) => Err(n)
      case Ok(rs) =>
        var last := log[|log| - 1];
        var d := Alone(rs, last);
        if d.Put? && d.answer == last.answer && Lookup(rs, Target(last.op)) == last.before
        then Ok(PutRaw(rs, Target(last.op), d.value))
        else Err(|log| - 1)
  }

  /** The final store is the store, and every answer the answer, of running the log serially. */
  predicate SerialEquivalent(records: Records, w: World) {
    Runnable(w.log) && Serial(records, w.log) == Ok(w.records)
  }

  predicate NamesTenant(e: Event) {
    e.Begin? && !e.op.Reencrypt?
  }

  /** No tenant of the run is called after the digest of another (non-empty) tenant of the run. */
  predicate NoAlias(es: seq<Event>) {
    forall i, j ::
      0 <= i < |es| && 0 <= j < |es| && NamesTenant(es[i]) && NamesTenant(es[j]) && es[j].op.tenant != NO_TENANT
      ==> es[i].op.tenant != DigestOf(es[j].op.tenant)
  }

  predicate Begun(es: seq<Event>, m: Manager, op: Op) {
    exists i :: 0 <= i < |es| && es[i].Begin? && es[i].m == m && es[i].op == op
  }

  /** What an actor has read stays true of the old name until it commits. */
  ghost predicate PendingConsistent(records: Records, es: seq<Event>, p: Pending) {
    && p.m.WellConfigured() && Begun(es, p.m, p.op)
    && (p.stage.Fetched? ==> p.stage.prior.None? && !p.op.Reencrypt?)
    && (p.stage.Checked? || p.stage.Asked? ==>
          && (p.op.Reencrypt? || p.stage.prior.Some? ==> !p.stage.legacy)
          && (!p.op.Reencrypt? && p.stage.prior.None? && !p.stage.legacy ==>
                LegacyKey(p.op.tenant, p.op.provider) !in records))
  }

  ghost predicate Consistent(w: World, es: seq<Event>) {
    && (forall a :: a in w.busy ==> PendingConsistent(w.records, es, w.busy[a]))
    && Runnable(w.log)
  }

  lemma PrepareIgnoresOldName(m: Manager, op: Op, prior: Option<Raw>, x: bool, y: bool)
    requires prior.Some? || op.Reencrypt?
    ensures Prepare(m, op, prior, x) == Prepare(m, op, prior, y)
  {
    if !op.Reencrypt? {
      assert ReadError(op.tenant, prior, x) == ReadError(op.tenant, prior, y);
      assert Load(m, op.tenant, op.provider, op.actor, op.delegated, prior, x)
          == Load(m, op.tenant, op.provider, op.actor, op.delegated, prior, y);
    }
  }

  /** Whether the old name is occupied is never looked at when the slot itself is. */
  lemma OldNameOnlyWhenEmpty(m: Manager, op: Op, prior: Option<Raw>, x: bool, y: bool, inp: Input)
    requires m.WellConfigured()
    requires x == y || prior.Some? || op.Reencrypt?
    ensures Decide(m, op, prior, x, inp) == Decide(m, op, prior, y, inp)
  {
    if x != y {
      PrepareIgnoresOldName(m, op, prior, x, y);
    }
  }

  /** An empty slot under an occupied old name is never written. */
  lemma OldNameBlocks(m: Manager, op: Op, prior: Option<Raw>, inp: Input)
    requires m.WellConfigured() && prior.None? && !op.Reencrypt?
    ensures !Decide(m, op, prior, true, inp).Put?
  {
  }

  /** Only the first store of a slot makes its name appear. */
  lemma OnlyStoreCreates(m: Manager, op: Op, prior: Option<Raw>, legacy: bool, inp: Input)
    requires m.WellConfigured()
    requires Decide(m, op, prior, legacy, inp).Put? && prior.None?
    ensures op.StoreKey? && op.tenant != NO_TENANT
  {
  }

  lemma BegunMore(es: seq<Event>, e: Event, m: Manager, op: Op)
    requires Begun(es, m, op) || e == Begin(e.actor, m, op)
    ensures Begun(es + [e], m, op)
  {
    var all := es + [e];
    if Begun(es, m, op) {
      var i :| 0 <= i < |es| && es[i].Begin? && es[i].m == m && es[i].op == op;
      assert all[i] == es[i];
    } else {
      assert all[|es|] == e;
    }
  }

  /** A commit never fills a name that somebody in the run takes for an old name. */
  lemma {:induction false} CommitKeepsOldNames(w: World, es: seq<Event>, p: Pending, q: Pending, inp: Input)
    requires NoAlias(es) && Begun(es, p.m, p.op) && Begun(es, q.m, q.op)
    requires p.m.WellConfigured() && ReadyToCommit(p) && !q.op.Reencrypt?
    requires LegacyKey(q.op.tenant, q.op.provider) !in w.records
    ensures LegacyKey(q.op.tenant, q.op.provider) !in CommitStep(w, p, inp).records
  {
    var (used, d) := Commitment(p, inp);
    if d.Put? && Lookup(w.records, Target(p.op)) == p.stage.prior
      && LegacyKey(q.op.tenant, q.op.provider) == Target(p.op) {
      OnlyStoreCreates(p.m, p.op, p.stage.prior, p.stage.legacy, used);
      assert false;
    }
  }

  lemma MoreEventsConsistent(records: Records, es: seq<Event>, e: Event, q: Pending)
    requires PendingConsistent(records, es, q)
    ensures PendingConsistent(records, es + [e], q)
  {
    BegunMore(es, e, q.m, q.op);
  }

  lemma {:induction false} CommitKeepsPending(w: World, es: seq<Event>, p: Pending, q: Pending, inp: Input)
    requires NoAlias(es) && Begun(es, p.m, p.op) && PendingConsistent(w.records, es, q)
    requires p.m.WellConfigured() && ReadyToCommit(p)
    ensures PendingConsistent(CommitStep(w, p, inp).records, es, q)
  {
    if !q.op.Reencrypt? && (q.stage.Checked? || q.stage.Asked?) && q.stage.prior.None? && !q.stage.legacy {
      CommitKeepsOldNames(w, es, p, q, inp);
    }
  }

  /** A step other than a commit moves one actor on and writes nothing. */
  lemma MoveConsistent(w: World, es: seq<Event>, e: Event, a: nat)
    requires Consistent(w, es) && !e.Commit? && a in Step(w, e).busy
    ensures PendingConsistent(w.records, es + [e], Step(w, e).busy[a])
  {
    if a in w.busy {
      MoreEventsConsistent(w.records, es, e, w.busy[a]);
    } else {
      BegunMore(es, e, e.m, e.op);
    }
  }

  lemma {:induction false} StepConsistent(w: World, es: seq<Event>, e: Event)
    requires Consistent(w, es) && NoAlias(es + [e])
    ensures Consistent(Step(w, e), es + [e])
  {
    var w' := Step(w, e);
    forall a | a in w'.busy
      ensures PendingConsistent(w'.records, es + [e], w'.busy[a])
    {
      if e.Commit? {
        MoreEventsConsistent(w.records, es, e, w.busy[a]);
        if e.actor in w.busy && w.busy[e.actor].m.WellConfigured() && ReadyToCommit(w.busy[e.actor]) {
          var p := w.busy[e.actor];
          MoreEventsConsistent(w.records, es, e, p);
          CommitKeepsPending(w.(busy := w.busy - {e.actor}), es + [e], p, w.busy[a], e.inp);
        }
      } else {
        MoveConsistent(w, es, e, a);
      }
    }
  }

  lemma {:induction false} CommitIsAlone(records: Records, w: World, es: seq<Event>, e: Event)
    requires Consistent(w, es) && SerialEquivalent(records, w)
    ensures SerialEquivalent(records, Step(w, e))
  {
    var w' := Step(w, e);
    if w'.log != w.log {
      var p := w.busy[e.actor];
      var (used, d) := Commitment(p, e.inp);
      var entry := w'.log[|w.log|];
      assert w'.log == w.log + [entry] && w'.log[..|w.log|] == w.log;
      var occupied := !p.op.Reencrypt? && LegacyKey(p.op.tenant, p.op.provider) in w.records;
      if p.stage.prior.None? && !p.op.Reencrypt? && p.stage.legacy {
        OldNameBlocks(p.m, p.op, p.stage.prior, used);
      }
      OldNameOnlyWhenEmpty(p.m, p.op, p.stage.prior, p.stage.legacy, occupied, used);
      assert Alone(w.records, entry) == d;
    }
  }

  lemma {:induction false} NoAliasPrefix(es: seq<Event>, n: nat)
    requires NoAlias(es) && n <= |es|
    ensures NoAlias(es[..n])
  {
  }

  lemma SerialStep(records: Records, w: World, es: seq<Event>)
    requires es != [] && NoAlias(es)
    requires var front := es[..|es| - 1]; Consistent(Run(w, front), front) && SerialEquivalent(records, Run(w, front))
    ensures Consistent(Run(w, es), es) && SerialEquivalent(records, Run(w, es))
  {
    var front, e := es[..|es| - 1], es[|es| - 1];
    assert es == front + [e];
    StepConsistent(Run(w, front), front, e);
    CommitIsAlone(records, Run(w, front), front, e);
  }

  /**
    Serial equivalence: however the steps of any number of actors interleave, the store ends as if
    the operations whose compare-and-swap succeeded had run one after another, in commit order, each
    with the store to itself and each giving the same answer. Nothing else has any effect.
   */
  lemma {:induction false} SerialEquivalence(records: Records, probed: set<(Provider, string)>, es: seq<Event>)
    requires NoAlias(es)
    ensures Consistent(Run(Fresh(records, probed), es), es)
    ensures SerialEquivalent(records, Run(Fresh(records, probed), es))
  {
    if es != [] {
      NoAliasPrefix(es, |es| - 1);
      SerialEquivalence(records, probed, es[..|es| - 1]);
      SerialStep(records, Fresh(records, probed), es);
    }
  }

  /** A step that commits nothing leaves the store alone: a lost race, a refusal and a read have no effect. */
  lemma OnlyCommitsWrite(w: World, e: Event)
    ensures Step(w, e).log == w.log ==> Step(w, e).records == w.records
    ensures Step(w, e).log == w.log || (e.Commit? && |Step(w, e).log| == |w.log| + 1 && w.log <= Step(w, e).log)
  {
  }

  // ----- exactly which sets of tenants are safe -----

  predicate NamesOnly(es: seq<Event>, tenants: set<TenantId>) {
    forall i :: 0 <= i < |es| && NamesTenant(es[i]) ==> es[i].op.tenant in tenants
  }

  /** Every run whose operations name these tenants, from every store, is serial. */
  ghost predicate AlwaysSerial(tenants: set<TenantId>) {
    forall records: Records, es: seq<Event> :: NamesOnly(es, tenants) ==>
      SerialEquivalent(records, Run(Fresh(records, {}), es))
  }

  /** A manager, a credential and inputs with which a first store succeeds. */
  datatype Sample = Sample(m: Manager, key: string, inp: Input) {
    predicate Usable() {
      m.WellConfigured() && GoodLength(Strip(key))
    }
  }

  function FirstStore(x: Sample, t: TenantId): Op {
    StoreKey(t, OpenAI, x.key, false, None, false)
  }

  /** The tenant named after `u`'s digest looks under its old name, then `u` stores, then it stores. */
  function AliasedRun(x: Sample, u: TenantId): seq<Event> {
    [Begin(0, x.m, FirstStore(x, DigestOf(u))), Read(0), ReadOldName(0)]
    + [Begin(1, x.m, FirstStore(x, u)), Read(1), ReadOldName(1)]
    + [Commit(1, x.inp)] + [Commit(0, x.inp)]
  }

  lemma FirstStoreWrites(x: Sample, t: TenantId, legacy: bool)
    requires x.Usable() && t != NO_TENANT
    ensures var d := Decide(x.m, FirstStore(x, t), None, legacy, x.inp);
            if legacy then d == Reject(LegacyRecord) else d.Put? && d.value.Some?
    ensures Question(Pending(x.m, FirstStore(x, t), Checked(None, legacy))).None?
  {
  }

  lemma RunStep(w: World, es: seq<Event>, e: Event)
    ensures Run(w, es + [e]) == Step(Run(w, es), e)
  {
    assert (es + [e])[..|es|] == es;
  }

  lemma {:induction false} RunSteps(w: World, es: seq<Event>, fs: seq<Event>)
    ensures Run(w, es + fs) == Run(Run(w, es), fs)
    decreases |fs|
  {
    if fs == [] {
      assert es + fs == es;
    } else {
      var front, e := fs[..|fs| - 1], fs[|fs| - 1];
      assert es + fs == (es + front) + [e];
      RunStep(w, es + front, e);
      RunSteps(w, es, front);
    }
  }

  lemma {:induction false} RunThree(w: World, e0: Event, e1: Event, e2: Event)
    ensures Run(w, [e0, e1, e2]) == Step(Step(Step(w, e0), e1), e2)
  {
    RunStep(w, [e0, e1], e2);
    RunStep(w, [e0], e1);
    RunStep(w, [], e0);
    assert [] + [e0] == [e0] && [e0] + [e1] == [e0, e1] && [e0, e1] + [e2] == [e0, e1, e2];
  }

  lemma VisitSteps(w: World, a: nat, x: Sample, t: TenantId)
    requires x.Usable()
    requires a !in w.busy && Slot(t, OpenAI) !in w.records && LegacyKey(t, OpenAI) !in w.records
    ensures Step(Step(Step(w, Begin(a, x.m, FirstStore(x, t))), Read(a)), ReadOldName(a))
         == w.(busy := w.busy[a := Pending(x.m, FirstStore(x, t), Checked(None, false))])
  {
    var w1 := Step(w, Begin(a, x.m, FirstStore(x, t)));
    assert w1 == w.(busy := w.busy[a := Pending(x.m, FirstStore(x, t), Started)]);
    var w2 := Step(w1, Read(a));
    assert w2.busy == w.busy[a := Pending(x.m, FirstStore(x, t), Fetched(None))];
  }

  /** One actor's whole visit to an empty slot whose old name is free, up to its write. */
  lemma {:induction false} Visit(w: World, a: nat, x: Sample, t: TenantId)
    requires x.Usable()
    requires a !in w.busy && Slot(t, OpenAI) !in w.records && LegacyKey(t, OpenAI) !in w.records
    ensures Run(w, [Begin(a, x.m, FirstStore(x, t)), Read(a), ReadOldName(a)])
         == w.(busy := w.busy[a := Pending(x.m, FirstStore(x, t), Checked(None, false))])
  {
    VisitSteps(w, a, x, t);
    RunThree(w, Begin(a, x.m, FirstStore(x, t)), Read(a), ReadOldName(a));
  }

  function FirstDecision(x: Sample, t: TenantId): Decision
    requires x.m.WellConfigured()
  {
    Decide(x.m, FirstStore(x, t), None, false, x.inp)
  }

  function FirstEntry(x: Sample, t: TenantId): Entry
    requires x.Usable() && t != NO_TENANT
  {
    FirstStoreWrites(x, t, false);
    Entry(x.m, FirstStore(x, t), x.inp, None, FirstDecision(x, t).answer)
  }

  lemma CommitFirst(w: World, a: nat, x: Sample, t: TenantId)
    requires x.Usable() && t != NO_TENANT && a in w.busy && Slot(t, OpenAI) !in w.records
    requires w.busy[a] == Pending(x.m, FirstStore(x, t), Checked(None, false))
    ensures FirstDecision(x, t).Put?
    ensures var w' := Step(w, Commit(a, x.inp));
            && w'.busy == w.busy - {a}
            && w'.records == PutRaw(w.records, Slot(t, OpenAI), FirstDecision(x, t).value)
            && w'.log == w.log + [FirstEntry(x, t)]
  {
    FirstStoreWrites(x, t, false);
  }

  lemma {:induction false} AliasedRunCommitsBoth(x: Sample, u: TenantId)
    requires x.Usable() && u != NO_TENANT
    ensures Run(Fresh(map[], {}), AliasedRun(x, u)).log == [FirstEntry(x, u), FirstEntry(x, DigestOf(u))]
  {
    var v := DigestOf(u);
    var w0 := Fresh(map[], {});
    var first := [Begin(0, x.m, FirstStore(x, v)), Read(0), ReadOldName(0)];
    var second := [Begin(1, x.m, FirstStore(x, u)), Read(1), ReadOldName(1)];
    var c1, c0 := Commit(1, x.inp), Commit(0, x.inp);
    Visit(w0, 0, x, v);
    var w1 := Run(w0, first);
    Visit(w1, 1, x, u);
    var w2 := Run(w1, second);
    CommitFirst(w2, 1, x, u);
    CommitFirst(Step(w2, c1), 0, x, v);
    RunSteps(w0, first, second);
    RunStep(w0, first + second, c1);
    RunStep(w0, first + second + [c1], c0);
  }

  lemma {:induction false} AliasBreaksSerial(x: Sample, u: TenantId)
    requires x.Usable() && u != NO_TENANT
    ensures !SerialEquivalent(map[], Run(Fresh(map[], {}), AliasedRun(x, u)))
  {
    var v := DigestOf(u);
    AliasedRunCommitsBoth(x, u);
    var e1, e2 := FirstEntry(x, u), FirstEntry(x, v);
    var log := [e1, e2];
    assert log[..1] == [e1] && [e1][..0] == [];
    assert Runnable([]) && Runnable([e1]) && Runnable(log);
    FirstStoreWrites(x, u, false);
    FirstStoreWrites(x, v, true);
    var rs := PutRaw(map[], Slot(u, OpenAI), FirstDecision(x, u).value);
    assert Serial(map[], []) == Ok(map[]);
    assert Alone(map[], e1) == FirstDecision(x, u);
    assert Serial(map[], [e1]) == Ok(rs);
    assert Slot(u, OpenAI) in rs;
    assert Alone(rs, e2) == Reject(LegacyRecord);
    assert Serial(map[], log).Err?;
  }

  /**
    The exact condition: runs over a set of tenants are always serial if and only if the set holds
    no (non-empty) tenant together with the tenant named after its digest.
   */
  lemma {:induction false} SerialExactlyWithoutAliases(tenants: set<TenantId>)
    ensures AlwaysSerial(tenants) <==> forall u :: u in tenants && u != NO_TENANT ==> DigestOf(u) !in tenants
  {
    var x := Sample(Manager("k1", map["k1" := 1], {}), "sk-sample", Input(Accepted, 0, 0, 0));
    assert SkipSpaces(x.key, 0) == 0 && DropSpaces(x.key, 0, 9) == 9;
    if AlwaysSerial(tenants) {
      forall u | u in tenants && u != NO_TENANT
        ensures DigestOf(u) !in tenants
      {
        if DigestOf(u) in tenants {
          assert NamesOnly(AliasedRun(x, u), tenants);
          AliasBreaksSerial(x, u);
        }
      }
    }
    if forall u :: u in tenants && u != NO_TENANT ==> DigestOf(u) !in tenants {
      forall records: Records, es: seq<Event> | NamesOnly(es, tenants)
        ensures SerialEquivalent(records, Run(Fresh(records, {}), es))
      {
        SerialEquivalence(records, {}, es);
      }
    }
  }
}
