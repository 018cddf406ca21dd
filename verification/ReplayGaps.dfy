/** Where the replay guard ends: runs in which one message is cosigned twice, because a failure arrived late, or
    because the window is over. */
module ReplayGaps {
  import opened Basics
  import opened Treasury
  import opened Cosigning
  import opened TreasuryRuns
  import opened TreasuryReplay
  import opened ReplayLifetime
  import L = Limits
  import RP = RentPlan

  // ---- a failure that arrives late: the same message cosigned twice, two milliseconds apart ----

  const ROOMY := Config(L.Config(10, 10, 1_000, 1_000), 1, false)

  /** Wallet 1 asks for message 7, which uses no contexts. */
  function Ask(at: Millis): Event {
    BeginCall(Call(1, 7, RP.ContextUse([], [], []), true, 0, at, at, at))
  }

  /** At most `n` reservations of a lamport each, and no plan of wallet 1 to find or to put back. */
  ghost predicate Idle(d: Desk, n: nat) {
    && Inv(d, ROOMY) && |d.limiter| <= n && (forall e :: 0 <= e < |d.limiter| ==> d.limiter[e].lamports <= 1)
    && 1 !in d.plans.live && (forall i :: 0 <= i < |d.plans.handles| ==> !d.plans.handles[i].removedPlan)
    && (forall i :: 0 <= i < |d.requests| ==> d.requests[i].wallet == 1)
  }

  lemma {:induction false} RoomLeft(h: L.History, who: L.Who, from: int, to: int)
    requires forall e :: 0 <= e < |h| ==> h[e].lamports <= 1
    ensures L.Count(h, who, from, to) <= |h| && L.Booked(h, who, from, to) <= |h|
  {
    if h != [] {
      RoomLeft(h[..|h| - 1], who, from, to);
    }
  }

  lemma LimiterAdmits(h: L.History, at: Millis)
    requires |h| <= 3 && forall e :: 0 <= e < |h| ==> h[e].lamports <= 1
    ensures L.Refused(h, ROOMY.limits, 1, 1, at) == None
  {
    RoomLeft(h, L.One(1), at - L.HOUR_MS, at);
    RoomLeft(h, L.One(1), at - L.DAY_MS, at);
    RoomLeft(h, L.Everyone, at - L.HOUR_MS, at);
    RoomLeft(h, L.Everyone, at - L.DAY_MS, at);
    hide L.Count, L.Booked;
  }

  lemma RegistryAdmits(r: RP.Registry, at: Millis)
    requires RP.Wired(r) && 1 !in r.live
    ensures var a := RP.Admit(r, 1, RP.ContextUse([], [], []), true, at);
      && a.outcome.Success? && 1 !in a.after.live
      && |a.after.handles| == |r.handles| + 1 && a.after.handles[..|r.handles|] == r.handles
      && !a.after.handles[|r.handles|].removedPlan
  {
    var t := RP.Sweep(r, at);
    assert RP.Refused(t, 1, RP.ContextUse([], [], []), true) == None;
  }

  lemma Asked(d: Desk, n: nat, at: Millis)
    requires Idle(d, n) && n <= 3 && 7 !in Unexpired(d.seen, at)
    ensures var s := Step(d, ROOMY, Ask(at));
      && Idle(s, n + 1) && s.seen == Unexpired(d.seen, at)[7 := at]
      && s.requests == d.requests + [Request(1, 7, at, at, 0, |d.limiter|, InFlight)]
  {
    hide Begin, RP.Admit, L.Refused, RP.Inv, Inv, Unexpired;
    InvPlans(d, ROOMY);
    BeginCases(d, ROOMY, Ask(at).call);
    LimiterAdmits(d.limiter, at);
    RegistryAdmits(d.plans, at);
    AskSucceeds(d, at);
    var s := Step(d, ROOMY, Ask(at));
    forall i | 0 <= i < |s.plans.handles| ensures !s.plans.handles[i].removedPlan {
      assert i < |d.plans.handles| ==> s.plans.handles[..|d.plans.handles|][i] == d.plans.handles[i];
    }
  }

  lemma AskSucceeds(d: Desk, at: Millis)
    requires RP.Wired(d.plans) && 7 !in Unexpired(d.seen, at)
    requires L.Refused(d.limiter, ROOMY.limits, 1, 1, at) == None
    requires RP.Admit(d.plans, 1, RP.ContextUse([], [], []), true, at).outcome.Success?
    ensures Begin(d, ROOMY, Ask(at).call).outcome.Success?
  {
    hide RP.Admit, L.Refused, Unexpired;
  }

  lemma UndoIdle(r: RP.Registry, i: nat)
    requires RP.Wired(r) && i < |r.handles| && 1 !in r.live && r.handles[i].wallet == 1
    requires forall j :: 0 <= j < |r.handles| ==> !r.handles[j].removedPlan
    ensures var s := RP.Undo(r, i);
      1 !in s.live && |s.handles| == |r.handles| && forall j :: 0 <= j < |s.handles| ==> !s.handles[j].removedPlan
  {
    assert !RP.Effective(r, i);
  }

  /** An outcome arrives: costless when it does not fail. */
  lemma Answered(d: Desk, n: nat, i: nat, a: Answer, at: Millis)
    requires Idle(d, n) && i < |d.requests| && d.requests[i].status == InFlight && d.requests[i].fee == 0
    requires !Fails(ROOMY, a) ==> a.before == a.later == Some(0)
    ensures var s := Step(d, ROOMY, FinishCall(i, a, at));
      && Idle(s, n) && |s.requests| == |d.requests| && s.requests == d.requests[i := s.requests[i]]
      && s.requests[i] == d.requests[i].(status := s.requests[i].status)
      && (if Fails(ROOMY, a) then s.requests[i].status == Released else s.requests[i].status.Kept?)
      && s.seen == if Fails(ROOMY, a) then d.seen - {d.requests[i].key} else d.seen
  {
    var s := Step(d, ROOMY, FinishCall(i, a, at));
    FinishFields(d, ROOMY, i, a);
    assert Settled(d, ROOMY, i);
    UndoIdle(d.plans, i);
    assert Inv(s, ROOMY) && s == Finish(d, ROOMY, i, a);
    hide Finish, Step, RP.Undo, Inv, RP.Inv, Fails, Settled;
  }

  /** `es` is in time order and leads to `d`. */
  ghost predicate Reached(es: seq<Event>, d: Desk, n: nat) {
    Ordered(es) && Run(ROOMY, es) == d && Idle(d, n)
  }

  lemma Longer(c: Config, es: seq<Event>, e: Event)
    ensures Run(c, es + [e]) == Step(Run(c, es), c, e) && Clock(es + [e]) == Moment(e)
    ensures Ordered(es + [e]) <==> Ordered(es) && Next(Clock(es), e)
  {
    assert (es + [e])[..|es|] == es;
    hide Step, Inv;
  }

  lemma After(es: seq<Event>, e: Event, d: Desk, n: nat, m: nat)
    requires Reached(es, d, n) && Next(Clock(es), e) && Idle(Step(d, ROOMY, e), m)
    ensures Reached(es + [e], Step(d, ROOMY, e), m) && Clock(es + [e]) == Moment(e)
  {
    Longer(ROOMY, es, e);
    hide Idle, Step, Run, Ordered, Clock, Inv;
  }

  lemma AskedAfter(es: seq<Event>, d: Desk, n: nat, at: Millis) returns (s: Desk)
    requires Reached(es, d, n) && Clock(es) <= at && n <= 3 && (7 in d.seen ==> at - d.seen[7] > REPLAY_WINDOW_MS)
    ensures Reached(es + [Ask(at)], s, n + 1) && Clock(es + [Ask(at)]) == at
    ensures 7 in s.seen && s.seen[7] == at
    ensures s.requests == d.requests + [Request(1, 7, at, at, 0, |d.limiter|, InFlight)]
  {
    s := Step(d, ROOMY, Ask(at));
    Asked(d, n, at);
    After(es, Ask(at), d, n, n + 1);
  }

  lemma AnsweredAfter(es: seq<Event>, d: Desk, n: nat, i: nat, a: Answer, at: Millis) returns (s: Desk)
    requires Reached(es, d, n) && Clock(es) <= at
    requires i < |d.requests| && d.requests[i].status == InFlight && d.requests[i].fee == 0
    requires !Fails(ROOMY, a) ==> a.before == a.later == Some(0)
    ensures Reached(es + [FinishCall(i, a, at)], s, n) && Clock(es + [FinishCall(i, a, at)]) == at
    ensures |s.requests| == |d.requests| && s.requests == d.requests[i := s.requests[i]]
    ensures s.requests[i] == d.requests[i].(status := s.requests[i].status)
    ensures if Fails(ROOMY, a) then s.requests[i].status == Released else s.requests[i].status.Kept?
    ensures if Fails(ROOMY, a) then d.requests[i].key !in s.seen else s.seen == d.seen
  {
    s := Step(d, ROOMY, FinishCall(i, a, at));
    Answered(d, n, i, a, at);
    After(es, FinishCall(i, a, at), d, n, n);
  }

  const COSTLESS := Answer(Some(0), Leaves(0), Some(0), true, Accepted)
  const UNREACHABLE := Answer(None, Unreachable, None, false, NotLanded)

  const SECOND: seq<Event> := [Ask(0)] + [Ask(300_001)]
  const THIRD: seq<Event> := SECOND + [FinishCall(0, UNREACHABLE, 300_002)] + [Ask(300_003)]
  const LATE: seq<Event> := THIRD + [FinishCall(1, COSTLESS, 300_004)] + [FinishCall(2, COSTLESS, 300_004)]

  predicate Asking(r: Request, at: Millis) {
    r.key == 7 && r.at == at && r.fee == 0 && r.status == InFlight
  }

  lemma Nothing()
    ensures Reached([], Run(ROOMY, []), 0) && Clock([]) == 0
    ensures Run(ROOMY, []).requests == [] && 7 !in Run(ROOMY, []).seen
  {
    OpeningInv(ROOMY);
  }

  lemma FirstIsIn() returns (d: Desk)
    ensures Reached([Ask(0)], d, 1) && Clock([Ask(0)]) == 0
    ensures |d.requests| == 1 && Asking(d.requests[0], 0) && 7 in d.seen && d.seen[7] == 0
  {
    hide *;
    Nothing();
    var es: seq<Event> := [];
    d := AskedAfter(es, Run(ROOMY, es), 0, 0);
    assert es + [Ask(0)] == [Ask(0)];
    AskingNow(0, |Run(ROOMY, es).limiter|);
    assert d.requests == [Request(1, 7, 0, 0, 0, |Run(ROOMY, es).limiter|, InFlight)];
  }

  lemma AskingNow(at: Millis, entry: nat)
    ensures Asking(Request(1, 7, at, at, 0, entry, InFlight), at)
  {
  }

  /** The hash of the first request expires while it is in flight, and the second is let in. */
  lemma SecondIsIn() returns (d: Desk)
    ensures Reached(SECOND, d, 2) && Clock(SECOND) == 300_001
    ensures |d.requests| == 2 && Asking(d.requests[0], 0) && Asking(d.requests[1], 300_001)
  {
    assert 300_001 > REPLAY_WINDOW_MS;
    hide *;
    var first := FirstIsIn();
    AskingNow(300_001, |first.limiter|);
    d := AskedAfter([Ask(0)], first, 1, 300_001);
  }

  /** The first one's failure forgets the second one's hash, and the third is let in. */
  lemma ThirdIsIn() returns (d: Desk)
    ensures Reached(THIRD, d, 3) && Clock(THIRD) == 300_003
    ensures |d.requests| == 3 && Asking(d.requests[1], 300_001) && Asking(d.requests[2], 300_003)
  {
    d := SecondIsIn();
    assert Fails(ROOMY, UNREACHABLE);
    hide Reached, Fails, Clock, Run;
    d := AnsweredAfter(SECOND, d, 2, 0, UNREACHABLE, 300_002);
    d := AskedAfter(SECOND + [FinishCall(0, UNREACHABLE, 300_002)], d, 2, 300_003);
  }

  /** Both conditions are needed. The first request for a message fails just after the window, once a second
      request for it is in flight, and a third is then let in; the second and the third, two milliseconds
      apart, are both cosigned. For that the cluster has to take the message more than the window after it was
      first presented. */
  lemma LateFailureLetsReplayIn()
    ensures Ordered(LATE) && !CleanRun(ROOMY, LATE) && !LandableRun(ROOMY, LATE)
    ensures var rs := Run(ROOMY, LATE).requests;
      |rs| == 3 && rs[1].status.Kept? && rs[2].status.Kept? && rs[1].key == rs[2].key && rs[2].at - rs[1].at == 2
  {
    LateRun();
    hide Run, CleanRun, LandableRun, Ordered, LATE;
    if CleanRun(ROOMY, LATE) {
      NoMessageCosignedTwice(ROOMY, LATE, 1, 2);
    }
    if LandableRun(ROOMY, LATE) {
      NoMessageKeptTwice(ROOMY, LATE);
    }
  }

  lemma LateRun()
    ensures Ordered(LATE)
    ensures var rs := Run(ROOMY, LATE).requests;
      |rs| == 3 && rs[1].status.Kept? && rs[2].status.Kept? && rs[1].key == rs[2].key && rs[2].at - rs[1].at == 2
  {
    var d := ThirdIsIn();
    assert !Fails(ROOMY, COSTLESS);
    hide Reached, Fails, Clock, Run;
    d := AnsweredAfter(THIRD, d, 3, 1, COSTLESS, 300_004);
    d := AnsweredAfter(THIRD + [FinishCall(1, COSTLESS, 300_004)], d, 3, 2, COSTLESS, 300_004);
    Opened(LATE, d, 3);
  }

  lemma Opened(es: seq<Event>, d: Desk, n: nat)
    requires Reached(es, d, n)
    ensures Ordered(es) && Run(ROOMY, es) == d
  {
  }

  // ---- the window itself: past it a message is cosigned again ----

  lemma {:induction false} NoFailuresAreClean(c: Config, es: seq<Event>)
    requires forall i :: 0 <= i < |es| && es[i].FinishCall? ==> !Fails(c, es[i].answer)
    ensures CleanRun(c, es)
  {
    if es != [] {
      NoFailuresAreClean(c, es[..|es| - 1]);
    }
  }

  const ANSWERED: seq<Event> := [Ask(0)] + [FinishCall(0, COSTLESS, 1)]
  const AGAIN: seq<Event> := ANSWERED + [Ask(300_001)] + [FinishCall(1, COSTLESS, 300_002)]

  lemma Costless()
    ensures !Fails(ROOMY, COSTLESS) && COSTLESS.before == COSTLESS.later == Some(0)
  {
  }

  lemma AskingMeans(r: Request, at: Millis)
    ensures Asking(r, at) <==> r.key == 7 && r.at == at && r.fee == 0 && r.status == InFlight
  {
  }

  lemma FirstIsAnswered() returns (d: Desk)
    ensures Reached(ANSWERED, d, 1) && Clock(ANSWERED) == 1
    ensures |d.requests| == 1 && d.requests[0].status.Kept? && d.requests[0].key == 7 && d.requests[0].at == 0
    ensures 7 in d.seen && d.seen[7] == 0
  {
    Costless();
    assert ANSWERED == [Ask(0)] + [FinishCall(0, COSTLESS, 1)];
    hide *;
    d := FirstIsIn();
    AskingMeans(d.requests[0], 0);
    d := AnsweredAfter([Ask(0)], d, 1, 0, COSTLESS, 1);
  }

  /** The guarantee is for the window only: just past it, and without any failure, the same message is cosigned
      again. */
  lemma ExpiryLetsReplayIn()
    ensures Ordered(AGAIN) && CleanRun(ROOMY, AGAIN)
    ensures var rs := Run(ROOMY, AGAIN).requests;
      |rs| == 2 && rs[0].status.Kept? && rs[1].status.Kept? && rs[0].key == rs[1].key
        && rs[1].at - rs[0].at == REPLAY_WINDOW_MS + 1
  {
    Costless();
    assert REPLAY_WINDOW_MS == 300_000;
    assert AGAIN == ANSWERED + [Ask(300_001)] + [FinishCall(1, COSTLESS, 300_002)];
    hide *;
    AgainIsClean();
    var d := FirstIsAnswered();
    d := AskedAfter(ANSWERED, d, 1, 300_001);
    d := AnsweredAfter(ANSWERED + [Ask(300_001)], d, 2, 1, COSTLESS, 300_002);
    Opened(AGAIN, d, 2);
  }

  lemma AgainIsClean()
    ensures CleanRun(ROOMY, AGAIN)
  {
    assert !Fails(ROOMY, COSTLESS);
    hide Fails, CleanRun;
    NoFailuresAreClean(ROOMY, AGAIN);
  }
}
