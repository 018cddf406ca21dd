/** What becomes of a rent payment request, exactly: when it is let in, what refuses it, and when its outcome keeps
    what it booked. */
module TreasuryAnswers {
  import opened Basics
  import opened Cosigning
  import opened Treasury
  import opened TreasuryRuns
  import opened TreasuryReplay
  import L = Limits
  import RP = RentPlan
  import RPA = RentPlanAnswers

  /** The transaction was simulated within the bound and signed, and nothing proves that it did not land. A credit
      to the treasury is within the bound: that is a payment's rent coming back. */
  predicate Stands(c: Config, a: Answer) {
    && a.before.Some? && a.simulation.Leaves? && a.later.Some?
    && Max(a.before.value, a.later.value) - a.simulation.lamports <= c.maxSpend
    && a.signs
    && (c.live ==> a.send != NotLanded)
  }

  /** The fee, and what was taken out of the treasury if anything was. */
  function Cost(a: Answer, fee: nat): nat
    requires a.before.Some? && a.simulation.Leaves? && a.later.Some?
  {
    fee + Max(Max(a.before.value, a.later.value) - a.simulation.lamports, 0)
  }

  lemma StandsExactly(c: Config, a: Answer, fee: nat)
    ensures var v := Cosign(c.live, Bounds(c.maxSpend, true), a);
      (v.Failed? <==> !Stands(c, a)) && (Stands(c, a) ==> Booked(v.spent, fee) == Cost(a, fee))
  {
    VerdictExactly(c.live, Bounds(c.maxSpend, true), a);
    hide Cosign;
  }

  /** The outcome of a request in flight, after any run: it is kept, at the cost of what it took out of the treasury
      and its fee, exactly when both balances were read around a simulation that left an amount within the bound,
      signing succeeded and (live) the send did not prove that it failed to land. Otherwise it is released. No other
      request changes; an outcome for a request that already has one changes nothing. */
  lemma KeptExactly(c: Config, es: seq<Event>, i: nat, a: Answer, now: Millis)
    requires i < |Run(c, es).requests|
    ensures var d, s := Run(c, es), Run(c, es + [FinishCall(i, a, now)]);
      if d.requests[i].status != InFlight then s == d
      else
        && s.requests == d.requests[i := s.requests[i]]
        && s.requests[i] == d.requests[i].(status :=
             if Stands(c, a) then Kept(Cost(a, d.requests[i].fee)) else Released)
  {
    var d := Run(c, es);
    OneMore(c, es, FinishCall(i, a, now));
    hide *;
    if d.requests[i].status == InFlight {
      StandsExactly(c, a, d.requests[i].fee);
      FinishFields(d, c, i, a);
      FinishStatus(d, c, i, a);
      FinishStep(d, c, i, a, now);
    } else {
      FinishStep(d, c, i, a, now);
    }
  }

  lemma OneMore(c: Config, es: seq<Event>, e: Event)
    ensures Run(c, es + [e]) == Step(Run(c, es), c, e)
  {
    assert (es + [e])[..|es|] == es;
    hide Step;
  }

  lemma FinishStep(d: Desk, c: Config, i: nat, a: Answer, now: Millis)
    requires Inv(d, c) && i < |d.requests|
    ensures d.requests[i].entry < |d.limiter| && i < |d.plans.handles|
    ensures Step(d, c, FinishCall(i, a, now)) == if d.requests[i].status == InFlight then Finish(d, c, i, a) else d
  {
    assert Settled(d, c, i);
    hide Finish, RP.Inv;
  }

  lemma FinishStatus(d: Desk, c: Config, i: nat, a: Answer)
    requires RP.Wired(d.plans) && i < |d.requests| && d.requests[i].entry < |d.limiter| && i < |d.plans.handles|
    ensures var v, r := Cosign(c.live, Bounds(c.maxSpend, true), a), d.requests[i];
      Finish(d, c, i, a).requests
      == d.requests[i := r.(status := if v.Failed? then Released else Kept(Booked(v.spent, r.fee)))]
  {
    hide Cosign, Booked, RP.Undo;
  }

  // ---- when a request is let in ----

  /** A request for the same message, begun at most five minutes ago, is in flight or kept. */
  ghost predicate Replayed(d: Desk, q: Call) {
    exists i ::
      0 <= i < |d.requests| && d.requests[i].status != Released && d.requests[i].key == q.key
      && q.now - d.requests[i].at <= 300_000
  }

  /** With this request's worst case booked, the limiter's caps would hold. */
  ghost predicate FitsCaps(d: Desk, c: Config, q: Call) {
    L.WithinCaps(d.limiter + [L.Entry(q.wallet, q.reservedAt, c.maxSpend + q.fee, true, false)], c.limits)
  }

  /** The plan registry has nothing against it. */
  ghost predicate FitsPlans(d: Desk, q: Call)
    requires RP.Wired(d.plans)
  {
    RPA.Unobjectionable(d.plans, q.wallet, q.use, q.walletSigns, q.admittedAt)
  }

  lemma PlanAnswer(r: RP.Registry, q: Call, why: RP.Refusal)
    requires RP.Inv(r)
    ensures var outcome := RP.Admit(r, q.wallet, q.use, q.walletSigns, q.admittedAt).outcome;
      && (outcome.Success? <==> RPA.Unobjectionable(r, q.wallet, q.use, q.walletSigns, q.admittedAt))
      && (outcome == Failure(why) <==> RPA.Objects(why, r, q.wallet, q.use, q.walletSigns, q.admittedAt))
  {
    hide *;
    RPA.PreparedIn(r, q.wallet);
    RPA.RefusedIsFirst(r, q.wallet, q.use, q.walletSigns, q.admittedAt, why);
    RPA.AfterOf(r, q.wallet, q.use, q.walletSigns, q.admittedAt);
  }

  lemma CapsAnswer(c: Config, es: seq<Event>, q: Call)
    requires Ordered(es) && Clock(es) <= q.reservedAt
    ensures L.Refused(Run(c, es).limiter, c.limits, q.wallet, c.maxSpend + q.fee, q.reservedAt) == None
            <==> FitsCaps(Run(c, es), c, q)
  {
    hide *;
    var d := Run(c, es);
    CapsHold(c, es);
    RunPast(c, es);
    PastBooked(d, Clock(es), q.reservedAt);
    L.RefusesExactly(d.limiter, c.limits, q.wallet, c.maxSpend + q.fee, q.reservedAt);
    FitsCapsIs(d, c, q);
  }

  lemma PastBooked(d: Desk, clock: Millis, now: Millis)
    requires Past(d, clock) && clock <= now
    ensures L.NotBefore(d.limiter, now)
  {
  }

  lemma FitsCapsIs(d: Desk, c: Config, q: Call)
    ensures FitsCaps(d, c, q) <==>
      L.WithinCaps(d.limiter + [L.Entry(q.wallet, q.reservedAt, c.maxSpend + q.fee, true, false)], c.limits)
  {
    hide L.WithinCaps;
  }

  lemma ReplayAnswer(c: Config, es: seq<Event>, q: Call)
    requires Ordered(es) && CleanRun(c, es) && Clock(es) <= q.now
    ensures RP.Wired(Run(c, es).plans)
    ensures Begin(Run(c, es), c, q).outcome == Failure(Replay) <==> Replayed(Run(c, es), q)
  {
    ReplayRefusedExactly(c, es, q);
    hide Run, Begin, RP.Wired;
  }

  lemma BeginOrder(d: Desk, c: Config, q: Call)
    requires RP.Wired(d.plans)
    ensures var outcome := Begin(d, c, q).outcome;
      var limited := L.Refused(d.limiter, c.limits, q.wallet, c.maxSpend + q.fee, q.reservedAt).Some?;
      var planned := RP.Admit(d.plans, q.wallet, q.use, q.walletSigns, q.admittedAt).outcome;
      && (outcome.Success? <==> outcome != Failure(Replay) && !limited && planned.Success?)
      && (outcome.Failure? && outcome.error.RateLimited? <==> outcome != Failure(Replay) && limited)
      && (outcome.Failure? && outcome.error.PlanRefused? <==>
            outcome != Failure(Replay) && !limited && planned.Failure?)
      && (outcome.Failure? && outcome.error.PlanRefused? ==> planned == Failure(outcome.error.why))
  {
    hide L.Refused, RP.Admit;
  }

  /** After a clean run in time order, a request begins exactly when no request for its message was begun within the
      last five minutes and is in flight or kept, its worst case fits the caps, and nothing is against it in the plan
      registry. The refusal is the first of these that fails. */
  lemma BegunExactly(c: Config, es: seq<Event>, q: Call, why: RP.Refusal)
    requires Ordered(es) && CleanRun(c, es) && Clock(es) <= q.now <= q.reservedAt
    ensures RP.Wired(Run(c, es).plans)
    ensures var d, outcome := Run(c, es), Begin(Run(c, es), c, q).outcome;
      && (outcome.Success? <==> !Replayed(d, q) && FitsCaps(d, c, q) && FitsPlans(d, q))
      && (outcome == Failure(Replay) <==> Replayed(d, q))
      && (outcome.Failure? && outcome.error.RateLimited? <==> !Replayed(d, q) && !FitsCaps(d, c, q))
      && (outcome == Failure(PlanRefused(why)) <==>
            && !Replayed(d, q) && FitsCaps(d, c, q)
            && RPA.Objects(why, d.plans, q.wallet, q.use, q.walletSigns, q.admittedAt))
  {
    hide *;
    var d := Run(c, es);
    InvPlans(d, c);
    ReplayAnswer(c, es, q);
    CapsAnswer(c, es, q);
    PlanAnswer(d.plans, q, why);
    BeginOrder(d, c, q);
    PlansAnswer(d, q);
  }

  lemma PlansAnswer(d: Desk, q: Call)
    requires RP.Wired(d.plans)
    ensures FitsPlans(d, q) <==> RPA.Unobjectionable(d.plans, q.wallet, q.use, q.walletSigns, q.admittedAt)
  {
  }
}
