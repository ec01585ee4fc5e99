/**
  One request's authority lease. A check is a coroutine with a single wait in its middle, so it is two
  atomic segments: what happens up to the question to the authority, and what happens with the answer.
  The sender of response messages, the poller and every other user of the lease interleave freely.
  There is one clock; the timeout around the question is exact.
 */
module Lease {
  import opened Wrappers

  const RECHECK_SECONDS := 10.0
  const MAX_AGE := 5.0
  const MAX_AHEAD := 1.0
  const LEEWAY := 30.0

  // ----- the answer -----

  /** The authority's reply; `proper` says it is uncompressed JSON of at most 4096 bytes with unique members. */
  datatype Reply = Reply(proper: bool, status: int, onlyInactive: bool, sameIdentity: bool, active: bool,
                         checkedAt: Option<int>, maxCacheSeconds: Option<int>)

  datatype Denial = Inactive | InvalidCredential | AuthorityUnavailable

  /** `IdentityStateClient.check` on a reply, at the time it is judged. */
  function Judge(r: Reply, now: real): Option<Denial> {
    if !r.proper then Some(AuthorityUnavailable)
    else if r.status == 401 && r.onlyInactive then Some(Inactive)
    else if r.status != 200 || !r.sameIdentity then Some(AuthorityUnavailable)
    else if !r.active || r.checkedAt.None? || !(now - MAX_AGE <= r.checkedAt.value as real <= now + MAX_AHEAD)
            || r.maxCacheSeconds.None? || !(0 <= r.maxCacheSeconds.value <= 15)
    then Some(AuthorityUnavailable)
    else None
  }

  /** A reply on which a check may return: in form, about this identity, active, looked up just now, briefly cached. */
  predicate Good(r: Reply, now: real) {
    && r.proper && r.status == 200 && r.sameIdentity && r.active
    && r.checkedAt.Some? && -MAX_AHEAD <= now - r.checkedAt.value as real <= MAX_AGE
    && r.maxCacheSeconds.Some? && 0 <= r.maxCacheSeconds.value <= 15
  }

  /** Exactly the good replies are positive, and only a plain 401 says that the credential is inactive. */
  lemma PositiveExactlyWhenGood(r: Reply, now: real)
    ensures Judge(r, now).None? <==> Good(r, now)
    ensures Judge(r, now) == Some(Inactive) <==> r.proper && r.status == 401 && r.onlyInactive
    ensures Judge(r, now) != Some(InvalidCredential)
  {
  }

  // ----- the two segments -----

  /** What the verified credential says about itself. */
  datatype Claims = Claims(key: int, exp: int, nbf: int, iat: int)

  datatype LeaseState = LeaseState(denial: Option<Denial>, checked: real)

  datatype Progress = Raises(denial: Denial) | Returns | Asks

  /** The signing key is still configured and unchanged, and the credential is inside its validity. */
  predicate CredentialHolds(c: Claims, configured: Option<int>, now: real) {
    configured == Some(c.key) && now < c.exp as real + LEEWAY && now + LEEWAY >= c.nbf as real
      && now + LEEWAY >= c.iat as real
  }

  function BeginCheck(c: Claims, l: LeaseState, force: bool, configured: Option<int>, now: real)
    : (LeaseState, Progress)
  {
    if l.denial.Some? then (l, Raises(l.denial.value))
    else if !CredentialHolds(c, configured, now) then (l.(denial := Some(InvalidCredential)), Raises(InvalidCredential))
    else if force || now - l.checked >= RECHECK_SECONDS then (l, Asks)
    else (l, Returns)
  }

  function FinishCheck(l: LeaseState, verdict: Option<Denial>, now: real): (LeaseState, Progress) {
    if verdict.Some? then (l.(denial := verdict), Raises(verdict.value))
    else if l.denial.Some? then (l, Raises(l.denial.value))
    else (l.(checked := now), Returns)
  }

  class AuthorityLease {
    const claims: Claims
    var denial: Option<Denial>
    var checkedMonotonic: real

    function Value(): LeaseState
      reads this
    {
      LeaseState(denial, checkedMonotonic)
    }

    constructor (claims: Claims)
      ensures this.claims == claims && Value() == LeaseState(None, 0.0)
    {
      this.claims := claims;
      denial, checkedMonotonic := None, 0.0;
    }

    /** `check` up to its wait. */
    method Begin(force: bool, configured: Option<int>, now: real) returns (p: Progress)
      modifies this
      ensures (Value(), p) == BeginCheck(claims, old(Value()), force, configured, now)
    {
      if denial.Some? {
        return Raises(denial.value);
      }
      if configured != Some(claims.key) || now >= claims.exp as real + LEEWAY
         || now + LEEWAY < claims.nbf as real || now + LEEWAY < claims.iat as real {
        denial := Some(InvalidCredential);
        return Raises(InvalidCredential);
      }
      if force || now - checkedMonotonic >= RECHECK_SECONDS {
        return Asks;
      }
      return Returns;
    }

    /** `check` from its wait on. */
    method Finish(verdict: Option<Denial>, now: real) returns (p: Progress)
      modifies this
      ensures (Value(), p) == FinishCheck(old(Value()), verdict, now)
    {
      if verdict.Some? {
        denial := verdict;
        return Raises(verdict.value);
      }
      if denial.Some? {
        return Raises(denial.value);
      }
      checkedMonotonic := now;
      return Returns;
    }
  }

  // ----- everybody who uses the lease -----

  datatype Call = Call(started: real, verdict: Option<(real, Option<Denial>)>)

  /** A reply that reached a waiting check, and when it was judged. */
  datatype Heard = Heard(at: real, reply: Reply)

  datatype System = System(
    lease: LeaseState,
    clock: real,
    waiting: map<nat, Call>,
    heard: seq<Heard>,
    returned: seq<real>)  // when a check returned normally, for each that did

  datatype Event =
    | Tick(seconds: real)
    | Start(id: nat, force: bool, configured: Option<int>)
    | Answer(id: nat, reply: Reply)
    | Resume(id: nat)

  datatype Config = Config(claims: Claims, timeout: real)

  predicate InTime(c: Config, s: System, call: Call) {
    s.clock <= call.started + c.timeout
  }

  function Settle(s: System, next: (LeaseState, Progress)): System {
    s.(lease := next.0, returned := if next.1.Returns? then s.returned + [s.clock] else s.returned)
  }

  /** How a waiting check ends when it resumes: with the judged answer, or with the timeout. */
  function Verdict(c: Config, s: System, call: Call): Option<Denial> {
    if InTime(c, s, call) && call.verdict.Some? then call.verdict.value.1 else Some(AuthorityUnavailable)
  }

  function Step(c: Config, s: System, e: Event): System {
    match e
    case Tick(d) => if d >= 0.0 then s.(clock := s.clock + d) else s
    case Start(id, force, configured) =>
      if id in s.waiting then s
      else
        var next := BeginCheck(c.claims, s.lease, force, configured, s.clock);
        if next.1.Asks? then s.(waiting := s.waiting[id := Call(s.clock, None)]) else Settle(s, next)
    case Answer(id, reply) =>
      if id in s.waiting && s.waiting[id].verdict.None? && InTime(c, s, s.waiting[id])
      then
        var v := Judge(reply, s.clock);
        s.(waiting := s.waiting[id := s.waiting[id].(verdict := Some((s.clock, v)))],
           heard := s.heard + [Heard(s.clock, reply)])
      else s
    case Resume(id) =>
      if id in s.waiting && (s.waiting[id].verdict.Some? || !InTime(c, s, s.waiting[id]))
      then
        var call := s.waiting[id];
        Settle(s.(waiting := s.waiting - {id}), FinishCheck(s.lease, Verdict(c, s, call), s.clock))
      else s
  }

  function Run(c: Config, s: System, es: seq<Event>): System {
    if es == [] then s else Step(c, Run(c, s, es[..|es| - 1]), es[|es| - 1])
  }

  // ----- denial -----

  lemma StepAfterDenial(c: Config, s: System, e: Event)
    requires s.lease.denial.Some?
    ensures Step(c, s, e).lease.denial.Some? && Step(c, s, e).returned == s.returned
  {
  }

  /**
    Denial is absorbing: once any check has set it, no check on the lease returns normally again, not even
    one that was already waiting for a positive answer.
   */
  lemma {:induction false} DenialIsAbsorbing(c: Config, s: System, es: seq<Event>)
    requires s.lease.denial.Some?
    ensures Run(c, s, es).lease.denial.Some? && Run(c, s, es).returned == s.returned
  {
    if es != [] {
      DenialIsAbsorbing(c, s, es[..|es| - 1]);
      StepAfterDenial(c, Run(c, s, es[..|es| - 1]), es[|es| - 1]);
    }
  }

  // ----- staleness -----

  /** A good reply judged no longer than a timeout before `t`. */
  predicate Supports(c: Config, h: Heard, t: real) {
    h.at <= t <= h.at + c.timeout && Good(h.reply, h.at)
  }

  /** A good reply that is fresh enough to let something through at `t`. */
  predicate Fresh(c: Config, h: Heard, t: real) {
    && Good(h.reply, h.at)
    && t - (RECHECK_SECONDS + c.timeout) < h.at <= t
    && h.reply.checkedAt.value as real > t - (RECHECK_SECONDS + c.timeout + MAX_AGE)
  }

  /** The last check is supported by an answer, and so is every answered call that may still resume in time. */
  ghost predicate Supported(c: Config, s: System) {
    && s.lease.checked <= s.clock
    && (exists h :: h in s.heard && Supports(c, h, s.lease.checked))
    && (forall id :: id in s.waiting ==> s.waiting[id].started <= s.clock)
    && (forall id :: id in s.waiting && s.waiting[id].verdict.Some? && s.waiting[id].verdict.value.1.None? ==>
          AnsweredCall(s, s.waiting[id]))
  }

  ghost predicate AnsweredCall(s: System, call: Call)
    requires call.verdict.Some?
  {
    var at := call.verdict.value.0;
    && call.started <= at <= s.clock
    && exists h :: h in s.heard && h.at == at && Good(h.reply, at)
  }

  ghost predicate Backed(c: Config, heard: seq<Heard>, t: real) {
    exists h :: h in heard && Fresh(c, h, t)
  }

  /** Every check that returned normally did so with a fresh good reply behind it. */
  ghost predicate AllFresh(c: Config, s: System, since: nat) {
    forall i :: since <= i < |s.returned| ==> Backed(c, s.heard, s.returned[i])
  }

  lemma SupportGivesFresh(c: Config, s: System)
    requires Supported(c, s) && s.clock - s.lease.checked < RECHECK_SECONDS
    ensures Backed(c, s.heard, s.clock)
  {
    var h :| h in s.heard && Supports(c, h, s.lease.checked);
    assert Fresh(c, h, s.clock);
  }

  lemma MoreHeard(c: Config, s: System, s': System, since: nat)
    requires AllFresh(c, s, since) && forall h :: h in s.heard ==> h in s'.heard
    requires s'.returned == s.returned
    ensures AllFresh(c, s', since)
  {
    forall i | since <= i < |s'.returned|
      ensures Backed(c, s'.heard, s'.returned[i])
    {
      assert Backed(c, s.heard, s.returned[i]);
      var h :| h in s.heard && Fresh(c, h, s.returned[i]);
      assert h in s'.heard;
    }
  }

  lemma OneMoreReturn(c: Config, s: System, s': System, since: nat)
    requires AllFresh(c, s, since) && s'.heard == s.heard
    requires s'.returned == s.returned + [s.clock]
    requires Backed(c, s.heard, s.clock)
    ensures AllFresh(c, s', since)
  {
    forall i | since <= i < |s'.returned|
      ensures Backed(c, s'.heard, s'.returned[i])
    {
      if i < |s.returned| {
        assert s'.returned[i] == s.returned[i] && Backed(c, s.heard, s.returned[i]);
      }
    }
  }

  lemma StartStep(c: Config, s: System, e: Event, since: nat)
    requires e.Start? && Supported(c, s) && AllFresh(c, s, since) && c.timeout > 0.0
    ensures Supported(c, Step(c, s, e)) && AllFresh(c, Step(c, s, e), since)
  {
    var s' := Step(c, s, e);
    if e.id !in s.waiting {
      var next := BeginCheck(c.claims, s.lease, e.force, e.configured, s.clock);
      if next.1.Returns? {
        SupportGivesFresh(c, s);
        OneMoreReturn(c, s, s', since);
      } else {
        MoreHeard(c, s, s', since);
      }
      forall id | id in s'.waiting && s'.waiting[id].verdict.Some? && s'.waiting[id].verdict.value.1.None?
        ensures AnsweredCall(s', s'.waiting[id])
      {
        assert AnsweredCall(s, s.waiting[id]);
      }
    }
  }

  lemma AnswerStep(c: Config, s: System, e: Event, since: nat)
    requires e.Answer? && Supported(c, s) && AllFresh(c, s, since) && c.timeout > 0.0
    ensures Supported(c, Step(c, s, e)) && AllFresh(c, Step(c, s, e), since)
  {
    var s' := Step(c, s, e);
    if s' != s {
      assert forall h :: h in s.heard ==> h in s'.heard;
      MoreHeard(c, s, s', since);
      var h0 :| h0 in s.heard && Supports(c, h0, s.lease.checked);
      assert h0 in s'.heard;
      PositiveExactlyWhenGood(e.reply, s.clock);
      forall id | id in s'.waiting && s'.waiting[id].verdict.Some? && s'.waiting[id].verdict.value.1.None?
        ensures AnsweredCall(s', s'.waiting[id])
      {
        if id == e.id {
          assert s'.heard[|s.heard|] == Heard(s.clock, e.reply);
          assert s'.heard[|s.heard|] in s'.heard;
        } else {
          assert AnsweredCall(s, s.waiting[id]);
          var h :| h in s.heard && h.at == s.waiting[id].verdict.value.0 && Good(h.reply, h.at);
          assert h in s'.heard;
        }
      }
    }
  }

  lemma ResumeStep(c: Config, s: System, e: Event, since: nat)
    requires e.Resume? && Supported(c, s) && AllFresh(c, s, since) && c.timeout > 0.0
    ensures Supported(c, Step(c, s, e)) && AllFresh(c, Step(c, s, e), since)
  {
    var s' := Step(c, s, e);
    if s' != s {
      var call := s.waiting[e.id];
      var next := FinishCheck(s.lease, Verdict(c, s, call), s.clock);
      if next.1.Returns? {
        assert AnsweredCall(s, call);
        var h :| h in s.heard && h.at == call.verdict.value.0 && Good(h.reply, h.at);
        assert Supports(c, h, s.clock) && Fresh(c, h, s.clock);
        OneMoreReturn(c, s, s', since);
      } else {
        MoreHeard(c, s, s', since);
      }
      forall id | id in s'.waiting && s'.waiting[id].verdict.Some? && s'.waiting[id].verdict.value.1.None?
        ensures AnsweredCall(s', s'.waiting[id])
      {
        assert AnsweredCall(s, s.waiting[id]);
      }
    }
  }

  lemma TickStep(c: Config, s: System, e: Event, since: nat)
    requires e.Tick? && Supported(c, s) && AllFresh(c, s, since)
    ensures Supported(c, Step(c, s, e)) && AllFresh(c, Step(c, s, e), since)
  {
    var s' := Step(c, s, e);
    MoreHeard(c, s, s', since);
    forall id | id in s'.waiting && s'.waiting[id].verdict.Some? && s'.waiting[id].verdict.value.1.None?
      ensures AnsweredCall(s', s'.waiting[id])
    {
      assert AnsweredCall(s, s.waiting[id]);
    }
  }

  /**
    Bounded staleness: once one check has been supported by a good reply, every message let through at time t
    rests on a good reply judged after t - (10 + T) about a look at the authority's records after
    t - (10 + T + 5), where T is the timeout; whatever the sender, the poller and others do in between.
   */
  lemma {:induction false} BoundedStaleness(c: Config, s: System, es: seq<Event>)
    requires c.timeout > 0.0 && Supported(c, s)
    ensures Supported(c, Run(c, s, es)) && AllFresh(c, Run(c, s, es), |s.returned|)
  {
    if es != [] {
      var front, e := es[..|es| - 1], es[|es| - 1];
      BoundedStaleness(c, s, front);
      var v := Run(c, s, front);
      match e
      case Tick(_) => TickStep(c, v, e, |s.returned|);
      case Start(_, _, _) => StartStep(c, v, e, |s.returned|);
      case Answer(_, _) => AnswerStep(c, v, e, |s.returned|);
      case Resume(_) => ResumeStep(c, v, e, |s.returned|);
    }
  }

  /** A new lease at any time of the clock. */
  function NewLease(now: real): System {
    System(LeaseState(None, 0.0), now, map[], [], [])
  }

  lemma RunMore(c: Config, s: System, es: seq<Event>, e: Event)
    ensures Run(c, s, es + [e]) == Step(c, Run(c, s, es), e)
  {
    assert (es + [e])[..|es|] == es;
  }

  /** A forced check from start to end, with the clock moving before and after the answer. */
  function ForcedCheck(configured: Option<int>, wait1: real, reply: Reply, wait2: real): seq<Event> {
    [Start(0, true, configured)] + [Tick(wait1)] + [Answer(0, reply)] + [Tick(wait2)] + [Resume(0)]
  }

  lemma ForcedCheckSteps(c: Config, s: System, configured: Option<int>, wait1: real, reply: Reply, wait2: real)
    ensures Run(c, s, ForcedCheck(configured, wait1, reply, wait2))
         == Step(c, Step(c, Step(c, Step(c, Step(c, s, Start(0, true, configured)), Tick(wait1)), Answer(0, reply)),
                         Tick(wait2)), Resume(0))
  {
    var e0, e1, e2, e3 := Start(0, true, configured), Tick(wait1), Answer(0, reply), Tick(wait2);
    RunMore(c, s, [], e0);
    assert [] + [e0] == [e0];
    RunMore(c, s, [e0], e1);
    RunMore(c, s, [e0] + [e1], e2);
    RunMore(c, s, [e0] + [e1] + [e2], e3);
    RunMore(c, s, [e0] + [e1] + [e2] + [e3], Resume(0));
  }

  /** The forced check that opens a request establishes the support, if it returns at all. */
  lemma InitialForcedCheck(c: Config, now: real, configured: Option<int>, wait1: real, reply: Reply, wait2: real)
    requires c.timeout > 0.0 && wait1 >= 0.0 && wait2 >= 0.0
    requires Run(c, NewLease(now), ForcedCheck(configured, wait1, reply, wait2)).returned != []
    ensures Supported(c, Run(c, NewLease(now), ForcedCheck(configured, wait1, reply, wait2)))
  {
    ForcedCheckSteps(c, NewLease(now), configured, wait1, reply, wait2);
    var s := Run(c, NewLease(now), ForcedCheck(configured, wait1, reply, wait2));
    PositiveExactlyWhenGood(reply, now + wait1);
    assert s.heard[0] in s.heard;
    assert Supports(c, s.heard[0], s.lease.checked);
  }
}
