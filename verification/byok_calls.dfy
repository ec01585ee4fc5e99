/**
  One lifecycle call among others: how it ends, as a function of what the store holds each time the
  call resumes from a wait; and that this is how its steps end in the interleaving of `ByokProtocol`.
 */
module ByokCalls {
  import opened Wrappers
  import opened Byok
  import opened ByokProtocol

  /** The store as a call finds it after its waits: for the read, the old name, the provider and the write. */
  datatype Waits = Waits(atRead: Records, atOldName: Records, atAsk: Records, atCommit: Records)

  function Prior(op: Op, waits: Waits): Option<Raw> {
    Lookup(waits.atRead, Target(op))
  }

  /** The slot was empty when it was read, and its old name occupied when that was looked at. */
  predicate FoundOldName(op: Op, waits: Waits) {
    !op.Reencrypt? && Prior(op, waits).None? && LegacyKey(op.tenant, op.provider) in waits.atOldName
  }

  function Prepared(m: Manager, op: Op, waits: Waits): Result<Plan, Decision> {
    Prepare(m, op, Prior(op, waits), FoundOldName(op, waits))
  }

  function Decided(m: Manager, op: Op, waits: Waits, inp: Input): Decision
    requires m.WellConfigured()
  {
    Decide(m, op, Prior(op, waits), FoundOldName(op, waits), inp)
  }

  /** The call is turned down before its first wait. */
  predicate UnfitToRead(op: Op) {
    !op.Reencrypt? && (op.provider.Other? || op.tenant == NO_TENANT || (op.StoreKey? && !GoodLength(Strip(op.apiKey))))
  }

  /** The store after the reads of `_get_raw_val`. */
  function AfterReads(tenant: TenantId, provider: Provider, waits: Waits, start: Records): Records {
    if tenant == NO_TENANT then start
    else if StorageKey(tenant, provider) in waits.atRead then waits.atRead
    else waits.atOldName
  }

  /** The store at the end of a call that does not come to its write. */
  function LastSeen(m: Manager, op: Op, waits: Waits, start: Records): Records {
    if UnfitToRead(op) then start
    else if Prepared(m, op, waits).Ok? && Asks(op, Prepared(m, op, waits).value).Some? then waits.atAsk
    else if op.Reencrypt? then waits.atRead
    else AfterReads(op.tenant, op.provider, waits, start)
  }

  /** A compare-and-swap of `value` over `prior`, and the answer after it. */
  function Swap(at: Records, key: SlotName, prior: Option<Raw>, value: Option<Raw>, answer: Answer)
    : (Records, Result<Answer, ByokError>)
  {
    if Lookup(at, key) == prior then (PutRaw(at, key, value), Ok(answer)) else (at, Err(Conflict))
  }

  /** The end of a call with this decision. */
  function Ending(d: Decision, op: Op, waits: Waits, last: Records): (Records, Result<Answer, ByokError>) {
    match d
    case Reject(e) => (last, Err(e))
    case Finish(a) => (last, Ok(a))
    case Put(value, a) => Swap(waits.atCommit, Target(op), Prior(op, waits), value, a)
  }

  /** The store and the result with which a call ends. */
  function Outcome(m: Manager, op: Op, waits: Waits, inp: Input, start: Records): (Records, Result<Answer, ByokError>)
    requires m.WellConfigured()
  {
    Ending(Decided(m, op, waits, inp), op, waits, LastSeen(m, op, waits, start))
  }

  predicate Writes(m: Manager, op: Op, waits: Waits, inp: Input)
    requires m.WellConfigured()
  {
    Decided(m, op, waits, inp).Put? && Lookup(waits.atCommit, Target(op)) == Prior(op, waits)
  }

  // ----- the same call as steps among the steps of others -----

  predicate NoneBy(es: seq<Event>, a: nat) {
    forall i :: 0 <= i < |es| ==> es[i].actor != a
  }

  /** One call of an actor, with what others do during each of its waits. */
  datatype Visit = Visit(a: nat, m: Manager, op: Op, inp: Input,
                         whileRead: seq<Event>, whileOldName: seq<Event>, whileAsk: seq<Event>, whileCommit: seq<Event>)
  {
    predicate Proper(w: World) {
      && m.WellConfigured() && a !in w.busy
      && NoneBy(whileRead, a) && NoneBy(whileOldName, a) && NoneBy(whileAsk, a) && NoneBy(whileCommit, a)
    }

    function ToRead(): seq<Event> {
      [Begin(a, m, op)] + whileRead
    }

    function ToOldName(): seq<Event> {
      ToRead() + [Read(a)] + whileOldName
    }

    function ToAsk(): seq<Event> {
      ToOldName() + [ReadOldName(a)] + whileAsk
    }

    function ToCommit(): seq<Event> {
      ToAsk() + [Ask(a, inp.probe)] + whileCommit
    }

    function Whole(): seq<Event> {
      ToCommit() + [Commit(a, inp)]
    }

    /** What the call finds after its waits in a run that goes on from `w`. */
    function Found(w: World): Waits {
      Waits(Run(w, ToRead()).records, Run(w, ToOldName()).records, Run(w, ToAsk()).records, Run(w, ToCommit()).records)
    }
  }

  lemma OtherStepKeeps(w: World, e: Event, a: nat)
    requires e.actor != a
    ensures Lookup(Step(w, e).busy, a) == Lookup(w.busy, a)
  {
  }

  lemma {:induction false} OthersKeep(w: World, es: seq<Event>, a: nat)
    requires NoneBy(es, a)
    ensures Lookup(Run(w, es).busy, a) == Lookup(w.busy, a)
  {
    if es != [] {
      OthersKeep(w, es[..|es| - 1], a);
      OtherStepKeeps(Run(w, es[..|es| - 1]), es[|es| - 1], a);
    }
  }

  /** An actor's step followed by steps of others. */
  lemma StepThenOthers(w: World, es: seq<Event>, e: Event, gap: seq<Event>, a: nat)
    requires NoneBy(gap, a)
    ensures Lookup(Run(w, es + [e] + gap).busy, a) == Lookup(Step(Run(w, es), e).busy, a)
  {
    RunStep(w, es, e);
    RunSteps(w, es + [e], gap);
    OthersKeep(Run(w, es + [e]), gap, a);
  }

  /** Where the actor stands after its reads. */
  lemma VisitReads(v: Visit, w: World)
    requires v.Proper(w)
    ensures var prior := Prior(v.op, v.Found(w));
            var stage := if prior.Some? || v.op.Reencrypt? then Checked(prior, false) else Fetched(prior);
            Lookup(Run(w, v.ToOldName()).busy, v.a) == Some(Pending(v.m, v.op, stage))
  {
    var e := Begin(v.a, v.m, v.op);
    assert [] + [e] + v.whileRead == v.ToRead();
    StepThenOthers(w, [], e, v.whileRead, v.a);
    assert Lookup(Run(w, v.ToRead()).busy, v.a) == Some(Pending(v.m, v.op, Started));
    StepThenOthers(w, v.ToRead(), Read(v.a), v.whileOldName, v.a);
  }

  lemma VisitChecks(v: Visit, w: World)
    requires v.Proper(w)
    ensures Lookup(Run(w, v.ToAsk()).busy, v.a)
         == Some(Pending(v.m, v.op, Checked(Prior(v.op, v.Found(w)), FoundOldName(v.op, v.Found(w)))))
  {
    VisitReads(v, w);
    StepThenOthers(w, v.ToOldName(), ReadOldName(v.a), v.whileAsk, v.a);
  }

  lemma VisitAsks(v: Visit, w: World)
    requires v.Proper(w)
    ensures var found := v.Found(w);
            var checked := Pending(v.m, v.op, Checked(Prior(v.op, found), FoundOldName(v.op, found)));
            var asked := Pending(v.m, v.op, Asked(Prior(v.op, found), FoundOldName(v.op, found), v.inp.probe));
            Lookup(Run(w, v.ToCommit()).busy, v.a) == Some(if Question(checked).Some? then asked else checked)
  {
    VisitChecks(v, w);
    StepThenOthers(w, v.ToAsk(), Ask(v.a, v.inp.probe), v.whileCommit, v.a);
  }

  /** The commitment of a call at its last step is its decision about what it found. */
  lemma VisitCommits(v: Visit, w: World)
    requires v.Proper(w)
    ensures var at := Run(w, v.ToCommit());
            && v.a in at.busy && at.busy[v.a].m == v.m && at.busy[v.a].op == v.op && ReadyToCommit(at.busy[v.a])
            && at.busy[v.a].stage.prior == Prior(v.op, v.Found(w))
            && Commitment(at.busy[v.a], v.inp) == (v.inp, Decided(v.m, v.op, v.Found(w), v.inp))
  {
    VisitAsks(v, w);
  }

  /**
    A call is a run (a wait that the call does not come to is no wait of the run: what others do then
    only happens later): its steps, with any steps of others in between, write what the call writes, or write
    nothing where the call writes nothing; and the log gains exactly the call's own write and answer.
   */
  lemma CallIsRun(v: Visit, w: World, start: Records)
    requires v.Proper(w)
    ensures var found, before, after := v.Found(w), Run(w, v.ToCommit()), Run(w, v.Whole());
            var (records, r) := Outcome(v.m, v.op, found, v.inp, start);
            && v.a !in after.busy
            && if Writes(v.m, v.op, found, v.inp)
               then r.Ok? && after.records == records
                    && after.log == before.log + [Entry(v.m, v.op, v.inp, Prior(v.op, found), r.value)]
               else after.records == before.records && after.log == before.log
  {
    VisitCommits(v, w);
    RunStep(w, v.ToCommit(), Commit(v.a, v.inp));
  }

  /**
    Hence concurrent calls are serial: at the end of a call, whatever had run before it and ran beside it,
    the store is as if all committed calls had run one after another, and a call that wrote is the last of them.
   */
  lemma CallsAreSerial(records: Records, probed: set<(Provider, string)>, earlier: seq<Event>, v: Visit)
    requires v.Proper(Run(Fresh(records, probed), earlier)) && NoAlias(earlier + v.Whole())
    ensures var w := Run(Fresh(records, probed), earlier);
            var after := Run(w, v.Whole());
            var (store, r) := Outcome(v.m, v.op, v.Found(w), v.inp, w.records);
            && SerialEquivalent(records, after)
            && (Writes(v.m, v.op, v.Found(w), v.inp) ==>
                  && after.records == store && after.log != [] && r == Ok(after.log[|after.log| - 1].answer)
                  && after.log[|after.log| - 1].op == v.op)
  {
    var w := Run(Fresh(records, probed), earlier);
    CallIsRun(v, w, w.records);
    RunSteps(Fresh(records, probed), earlier, v.Whole());
    SerialEquivalence(records, probed, earlier + v.Whole());
  }
}
