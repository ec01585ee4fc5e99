/**
  What the authority's replies and the credential itself say about every message that a lease lets through,
  in terms of the events of a run alone.
 */
module LeaseRuns {
  import opened Wrappers
  import opened Lease

  // ----- what was heard are the replies of the run -----

  /** Event `j` brings this reply, at this time of the clock. */
  predicate AnswersAt(c: Config, s: System, es: seq<Event>, j: nat, h: Heard)
    requires j < |es|
  {
    es[j].Answer? && es[j].reply == h.reply && Run(c, s, es[..j]).clock == h.at
  }

  lemma StepHears(c: Config, s: System, e: Event)
    ensures Step(c, s, e).heard == s.heard
         || (e.Answer? && Step(c, s, e).heard == s.heard + [Heard(s.clock, e.reply)])
  {
  }

  /** What was heard since `s` was brought by an event. */
  lemma {:induction false} HeardWasAnswered(c: Config, s: System, es: seq<Event>, i: nat) returns (j: nat)
    requires |s.heard| <= i < |Run(c, s, es).heard|
    ensures j < |es| && AnswersAt(c, s, es, j, Run(c, s, es).heard[i])
    decreases |es|
  {
    var n := |es| - 1;
    var front := es[..n];
    StepHears(c, Run(c, s, front), es[n]);
    if i < |Run(c, s, front).heard| {
      j := HeardWasAnswered(c, s, front, i);
      assert es[..j] == front[..j];
    } else {
      j := n;
    }
  }

  lemma {:induction false} HeardGrows(c: Config, s: System, es: seq<Event>)
    ensures s.heard <= Run(c, s, es).heard
    ensures s.returned <= Run(c, s, es).returned
  {
    if es != [] {
      HeardGrows(c, s, es[..|es| - 1]);
      StepHears(c, Run(c, s, es[..|es| - 1]), es[|es| - 1]);
    }
  }

  lemma {:induction false} RunConcat(c: Config, s: System, es: seq<Event>, fs: seq<Event>)
    ensures Run(c, s, es + fs) == Run(c, Run(c, s, es), fs)
    decreases |fs|
  {
    if fs == [] {
      assert es + fs == es;
    } else {
      assert (es + fs)[..|es + fs| - 1] == es + fs[..|fs| - 1];
      RunConcat(c, s, es, fs[..|fs| - 1]);
    }
  }

  /** A request: the forced check that opens it, then anything at all. */
  datatype Opening = Opening(now: real, configured: Option<int>, wait1: real, reply: Reply, wait2: real) {
    function Events(): seq<Event> {
      ForcedCheck(configured, wait1, reply, wait2)
    }

    function Opened(c: Config): System {
      Run(c, NewLease(now), Events())
    }
  }

  lemma OpeningReturnsOnce(c: Config, o: Opening)
    requires c.timeout > 0.0 && o.wait1 >= 0.0 && o.wait2 >= 0.0 && o.Opened(c).returned != []
    ensures o.Opened(c).returned == [o.Opened(c).clock] && o.Opened(c).lease.checked == o.Opened(c).clock
  {
    ForcedCheckSteps(c, NewLease(o.now), o.configured, o.wait1, o.reply, o.wait2);
  }

  /**
    Every message that a request lets through at time t, whoever interleaves with whom, has an event of the
    request behind it that brought a good reply: proper, 200, for this identity, active, looked up and judged
    within 10 + T seconds (and 5 more for the look) before t.
   */
  lemma EveryReturnIsAnswered(c: Config, o: Opening, es: seq<Event>, i: nat) returns (j: nat, h: Heard)
    requires c.timeout > 0.0 && o.wait1 >= 0.0 && o.wait2 >= 0.0 && o.Opened(c).returned != []
    requires i < |Run(c, NewLease(o.now), o.Events() + es).returned|
    ensures j < |o.Events() + es| && AnswersAt(c, NewLease(o.now), o.Events() + es, j, h)
    ensures var t := Run(c, NewLease(o.now), o.Events() + es).returned[i];
            && h.reply.proper && h.reply.status == 200 && h.reply.sameIdentity && h.reply.active
            && t - (10.0 + c.timeout) < h.at <= t && h.reply.checkedAt.Some? && h.reply.maxCacheSeconds.Some?
            && h.at - 5.0 <= h.reply.checkedAt.value as real <= h.at + 1.0 && 0 <= h.reply.maxCacheSeconds.value <= 15
  {
    var s, all := o.Opened(c), o.Events() + es;
    var w := Run(c, NewLease(o.now), all);
    RunConcat(c, NewLease(o.now), o.Events(), es);
    InitialForcedCheck(c, o.now, o.configured, o.wait1, o.reply, o.wait2);
    OpeningReturnsOnce(c, o);
    HeardGrows(c, s, es);
    var heard := if i == 0 then s.heard else w.heard;
    if i == 0 {
      SupportGivesFresh(c, s);
    } else {
      BoundedStaleness(c, s, es);
    }
    assert Backed(c, heard, w.returned[i]);
    h :| h in heard && Fresh(c, h, w.returned[i]);
    var k :| 0 <= k < |heard| && heard[k] == h;
    j := HeardWasAnswered(c, NewLease(o.now), all, k);
  }

  // ----- revocation -----

  /** The authority does not vouch for the identity. */
  predicate Refuses(r: Reply) {
    !r.active || !r.sameIdentity || r.status != 200 || !r.proper
  }

  /** From this time on every reply of the run refuses. */
  predicate RefusesFrom(c: Config, s: System, es: seq<Event>, revoked: real) {
    && (forall i :: 0 <= i < |s.heard| && s.heard[i].at >= revoked ==> Refuses(s.heard[i].reply))
    && (forall j :: 0 <= j < |es| && es[j].Answer? && Run(c, s, es[..j]).clock >= revoked ==> Refuses(es[j].reply))
  }

  /**
    Revocation takes effect: if from time `revoked` on every reply says that the identity is inactive, or is
    about another one, or is no 200 at all, then nothing is let through 10 + T seconds after that time or later.
   */
  lemma RevocationTakesEffect(c: Config, s: System, es: seq<Event>, revoked: real, i: nat)
    requires c.timeout > 0.0 && Supported(c, s) && RefusesFrom(c, s, es, revoked)
    requires |s.returned| <= i < |Run(c, s, es).returned|
    ensures Run(c, s, es).returned[i] < revoked + 10.0 + c.timeout
  {
    var w := Run(c, s, es);
    BoundedStaleness(c, s, es);
    HeardGrows(c, s, es);
    assert Backed(c, w.heard, w.returned[i]);
    var h :| h in w.heard && Fresh(c, h, w.returned[i]);
    var k :| 0 <= k < |w.heard| && w.heard[k] == h;
    if k < |s.heard| {
      assert s.heard[k] == h;
    } else {
      var j := HeardWasAnswered(c, s, es, k);
    }
  }

  // ----- the credential's own validity -----

  /**
    The signing key is configured as it was, and the time is inside the credential's validity give or take 30
    seconds.
   */
  predicate WithinValidity(c: Claims, configured: Option<int>, t: real) {
    && configured.Some? && configured.value == c.key
    && t - 30.0 < c.exp as real && c.nbf as real <= t + 30.0 && c.iat as real <= t + 30.0
  }

  /** A check began at this time, and found the credential valid then. */
  ghost predicate BegunValid(c: Config, s: System, es: seq<Event>, at: real) {
    exists j :: 0 <= j < |es| && StartsValid(c, s, es, j, at)
  }

  predicate StartsValid(c: Config, s: System, es: seq<Event>, j: nat, at: real)
    requires j < |es|
  {
    es[j].Start? && Run(c, s, es[..j]).clock == at && WithinValidity(c.claims, es[j].configured, at)
  }

  /** A message let through at `t` belongs to a check that began no longer than a timeout before. */
  ghost predicate ValidReturn(c: Config, s: System, es: seq<Event>, t: real) {
    exists at: real :: BegunValid(c, s, es, at) && at <= t <= at + c.timeout
  }

  ghost predicate AllValid(c: Config, s: System, es: seq<Event>) {
    var w := Run(c, s, es);
    && (forall id :: id in w.waiting ==>
      w.waiting[id].started <= w.clock && BegunValid(c, s, es, w.waiting[id].started))
    && (forall i :: |s.returned| <= i < |w.returned| ==> ValidReturn(c, s, es, w.returned[i]))
  }

  lemma BegunMore(c: Config, s: System, es: seq<Event>, e: Event, at: real)
    requires BegunValid(c, s, es, at)
    ensures BegunValid(c, s, es + [e], at)
  {
    var j :| 0 <= j < |es| && StartsValid(c, s, es, j, at);
    assert (es + [e])[..j] == es[..j];
    assert StartsValid(c, s, es + [e], j, at);
  }

  lemma BegunNow(c: Config, s: System, es: seq<Event>, e: Event)
    requires e.Start? && WithinValidity(c.claims, e.configured, Run(c, s, es).clock)
    ensures BegunValid(c, s, es + [e], Run(c, s, es).clock)
  {
    assert (es + [e])[..|es|] == es;
    assert StartsValid(c, s, es + [e], |es|, Run(c, s, es).clock);
  }

  lemma ReturnedMore(c: Config, s: System, es: seq<Event>, e: Event, t: real)
    requires ValidReturn(c, s, es, t)
    ensures ValidReturn(c, s, es + [e], t)
  {
    var at: real :| BegunValid(c, s, es, at) && at <= t <= at + c.timeout;
    BegunMore(c, s, es, e, at);
  }

  /** A check gets past its first half only inside the validity. */
  lemma OnlyValidGoesOn(c: Claims, l: LeaseState, force: bool, configured: Option<int>, now: real)
    requires BeginCheck(c, l, force, configured, now).1 != Raises(InvalidCredential) && l.denial.None?
    ensures WithinValidity(c, configured, now)
  {
  }

  lemma WaitingStaysValid(c: Config, s: System, es: seq<Event>, e: Event, id: nat)
    requires AllValid(c, s, es) && id in Step(c, Run(c, s, es), e).waiting
    ensures var v, w := Run(c, s, es), Step(c, Run(c, s, es), e);
            w.waiting[id].started <= w.clock && BegunValid(c, s, es + [e], w.waiting[id].started)
  {
    hide BegunValid, WithinValidity;
    var v := Run(c, s, es);
    if id in v.waiting {
      BegunMore(c, s, es, e, v.waiting[id].started);
    } else {
      OnlyValidGoesOn(c.claims, v.lease, e.force, e.configured, v.clock);
      BegunNow(c, s, es, e);
    }
  }

  lemma NewReturnIsValid(c: Config, s: System, es: seq<Event>, e: Event)
    requires c.timeout > 0.0 && AllValid(c, s, es)
    ensures var v, w := Run(c, s, es), Step(c, Run(c, s, es), e);
            w.returned == v.returned || (w.returned == v.returned + [v.clock] && ValidReturn(c, s, es + [e], v.clock))
  {
    var v := Run(c, s, es);
    if e.Start? && Step(c, v, e).returned != v.returned {
      OnlyValidGoesOn(c.claims, v.lease, e.force, e.configured, v.clock);
      BegunNow(c, s, es, e);
    } else if e.Resume? && Step(c, v, e).returned != v.returned {
      BegunMore(c, s, es, e, v.waiting[e.id].started);
    }
  }

  lemma StepIsValid(c: Config, s: System, es: seq<Event>, e: Event)
    requires c.timeout > 0.0 && AllValid(c, s, es)
    ensures AllValid(c, s, es + [e])
  {
    var v, w := Run(c, s, es), Step(c, Run(c, s, es), e);
    RunMore(c, s, es, e);
    NewReturnIsValid(c, s, es, e);
    forall id | id in w.waiting
      ensures w.waiting[id].started <= w.clock && BegunValid(c, s, es + [e], w.waiting[id].started)
    {
      WaitingStaysValid(c, s, es, e, id);
    }
    forall i | |s.returned| <= i < |w.returned|
      ensures ValidReturn(c, s, es + [e], w.returned[i])
    {
      if i < |v.returned| {
        ReturnedMore(c, s, es, e, v.returned[i]);
      }
    }
  }

  /**
    Nothing is let through outside the credential's own validity: every message belongs to a check that began
    at most a timeout earlier, when the signing key was unchanged and the credential neither expired nor too new.
   */
  lemma {:induction false} ReturnsAreValid(c: Config, s: System, es: seq<Event>)
    requires c.timeout > 0.0 && s.waiting == map[]
    ensures AllValid(c, s, es)
    decreases |es|
  {
    if es != [] {
      ReturnsAreValid(c, s, es[..|es| - 1]);
      StepIsValid(c, s, es[..|es| - 1], es[|es| - 1]);
      assert es == es[..|es| - 1] + [es[|es| - 1]];
    }
  }

  // ----- what a check answers -----

  /** A whole forced check of caller `id`, with nobody else in between. */
  function WholeCheck(c: Config, s: System, id: nat, configured: Option<int>, wait1: real, reply: Reply, wait2: real)
    : System
  {
    var asked := Step(c, s, Start(id, true, configured));
    var answered := Step(c, Step(c, asked, Tick(wait1)), Answer(id, reply));
    Step(c, Step(c, answered, Tick(wait2)), Resume(id))
  }

  /**
    A forced check of a valid credential, answered in time, returns exactly if the reply is good; otherwise it
    denies for good: as inactive on the authority's plain 401, as unavailable on anything else.
   */
  lemma CheckAnswers(c: Config, s: System, id: nat, configured: Option<int>, wait1: real, reply: Reply, wait2: real)
    requires s.lease.denial.None? && id !in s.waiting && WithinValidity(c.claims, configured, s.clock)
    requires wait1 >= 0.0 && wait2 >= 0.0 && wait1 + wait2 <= c.timeout
    ensures var w := WholeCheck(c, s, id, configured, wait1, reply, wait2);
            && w.clock == s.clock + wait1 + wait2 && w.waiting == s.waiting
            && (if Good(reply, s.clock + wait1) then
                  w.lease == LeaseState(None, w.clock) && w.returned == s.returned + [w.clock]
                else
                  && w.returned == s.returned
                  && w.lease.denial == Some(if reply.proper && reply.status == 401 && reply.onlyInactive then Inactive
                                            else AuthorityUnavailable))
  {
    var asked := Step(c, s, Start(id, true, configured));
    assert asked == s.(waiting := s.waiting[id := Call(s.clock, None)]);
    var ticked := Step(c, asked, Tick(wait1));
    var answered := Step(c, ticked, Answer(id, reply));
    PositiveExactlyWhenGood(reply, s.clock + wait1);
    assert answered.waiting[id] == Call(s.clock, Some((s.clock + wait1, Judge(reply, s.clock + wait1))));
    var late := Step(c, answered, Tick(wait2));
    assert late.waiting - {id} == s.waiting;
  }

  /**
    A check that is not forced returns at once while the last answer is less than ten seconds old, and asks after
    that.
   */
  lemma RecentCheckReturns(c: Config, s: System, id: nat, configured: Option<int>)
    requires s.lease.denial.None? && id !in s.waiting && WithinValidity(c.claims, configured, s.clock)
    ensures var w := Step(c, s, Start(id, false, configured));
            if s.clock - s.lease.checked < 10.0 then w == s.(returned := s.returned + [s.clock])
            else w == s.(waiting := s.waiting[id := Call(s.clock, None)])
  {
  }

  /** Outside its validity a check denies for good, whether it is forced or not. */
  lemma InvalidIsDenied(c: Config, s: System, id: nat, force: bool, configured: Option<int>)
    requires s.lease.denial.None? && id !in s.waiting && !WithinValidity(c.claims, configured, s.clock)
    ensures Step(c, s, Start(id, force, configured)) == s.(lease := s.lease.(denial := Some(InvalidCredential)))
  {
  }
}
