/** While the cluster takes no message longer than the replay window after it was first presented, no message is
    cosigned and kept twice, whatever fails and whenever. */
module ReplayLifetime {
  import opened Basics
  import opened Treasury
  import opened TreasuryRuns
  import opened TreasuryReplay

  /** All requests for message `k` began no longer than the window before `t`. */
  ghost predicate Young(d: Desk, k: Hash, t: int) {
    forall i :: 0 <= i < |d.requests| && d.requests[i].key == k ==> t - d.requests[i].at <= REPLAY_WINDOW_MS
  }

  /** An event that is not the success of a message whose first request began longer than the window ago: the
      cluster no longer takes it then, because its blockhash has expired. */
  ghost predicate Landable(d: Desk, c: Config, e: Event) {
    match e
    case BeginCall(_) => true
    case FinishCall(i, a, now) =>
      i < |d.requests| && d.requests[i].status == InFlight && !Fails(c, a) ==> Young(d, d.requests[i].key, now)
  }

  ghost predicate LandableRun(c: Config, es: seq<Event>) {
    es == [] || (LandableRun(c, es[..|es| - 1]) && Landable(Run(c, es[..|es| - 1]), c, es[|es| - 1]))
  }

  /** At `t`, a young message has at most one request not released, and that one is remembered. */
  ghost predicate SingleWhileYoung(d: Desk, t: int) {
    && (forall i, j ::
         0 <= i < j < |d.requests| && d.requests[i].key == d.requests[j].key && Young(d, d.requests[i].key, t) ==>
          !Held(d.requests[i]) || !Held(d.requests[j]))
    && (forall i :: 0 <= i < |d.requests| && Held(d.requests[i]) && Young(d, d.requests[i].key, t) ==>
          d.requests[i].key in d.seen && d.seen[d.requests[i].key] == d.requests[i].at)
  }

  ghost predicate KeptOnce(d: Desk) {
    forall i, j :: 0 <= i < j < |d.requests| && d.requests[i].status.Kept? && d.requests[j].status.Kept? ==>
      d.requests[i].key != d.requests[j].key
  }

  lemma YoungEarlier(d: Desk, k: Hash, t: int, later: int)
    requires t <= later && Young(d, k, later)
    ensures Young(d, k, t)
  {
  }

  lemma SingleLater(d: Desk, s: Desk, t: int, later: Millis)
    requires SingleWhileYoung(d, t) && t <= later && s.requests == d.requests
    requires s.seen == d.seen || s.seen == Unexpired(d.seen, later)
    ensures SingleWhileYoung(s, later)
  {
    forall i | 0 <= i < |s.requests| && Young(s, s.requests[i].key, later) ensures Young(d, d.requests[i].key, t) {
      YoungEarlier(d, d.requests[i].key, t, later);
    }
  }

  /** A request let in finds no other held for a message that is young. */
  lemma SingleAdded(d: Desk, s: Desk, r: Request, t: int, now: Millis, later: int)
    requires SingleWhileYoung(d, t) && KeptOnce(d) && t <= now <= later && r.at == now && r.status == InFlight
    requires r.key !in Unexpired(d.seen, now) && s.seen == Unexpired(d.seen, now)[r.key := now]
      && s.requests == d.requests + [r]
    ensures SingleWhileYoung(s, later) && KeptOnce(s)
  {
    var n := |d.requests|;
    forall i | 0 <= i < n && Young(s, s.requests[i].key, later)
      ensures Young(d, d.requests[i].key, t) && (s.requests[i].key == r.key ==> !Held(s.requests[i]))
    {
      forall j | 0 <= j < n && d.requests[j].key == d.requests[i].key ensures t - d.requests[j].at <= REPLAY_WINDOW_MS {
        assert s.requests[j] == d.requests[j];
      }
      assert s.requests[i] == d.requests[i] && later - s.requests[i].at <= REPLAY_WINDOW_MS;
    }
  }

  lemma SingleBegun(d: Desk, c: Config, q: Call, t: int, later: Millis)
    requires Inv(d, c) && SingleWhileYoung(d, t) && KeptOnce(d) && t <= q.now <= later
    ensures var s := Begin(d, c, q).desk; SingleWhileYoung(s, later) && KeptOnce(s)
  {
    InvPlans(d, c);
    BeginCases(d, c, q);
    var s := Begin(d, c, q);
    hide *;
    match s.outcome
    case Success(_) => SingleAdded(d, s.desk, s.desk.requests[|d.requests|], t, q.now, later);
    case Failure(PlanRefused(_)) => SinglePruned(d, s.desk, t, q.now, later);
    case Failure(_) => SinglePruned(d, s.desk, t, q.now, later);
  }

  lemma SinglePruned(d: Desk, s: Desk, t: int, now: Millis, later: Millis)
    requires SingleWhileYoung(d, t) && KeptOnce(d) && t <= now <= later
    requires s.requests == d.requests && s.seen == Unexpired(d.seen, now)
    ensures SingleWhileYoung(s, later) && KeptOnce(s)
  {
    SingleLater(d, s, t, now);
    SingleLater(s, s, now, later);
  }

  /** A failure forgets a young message together with its only request; a success is that of the only one. */
  lemma SingleFinished(d: Desk, s: Desk, i: nat, t: int, now: int)
    requires SingleWhileYoung(d, t) && KeptOnce(d) && t <= now && i < |d.requests| && d.requests[i].status == InFlight
    requires |s.requests| == |d.requests|
      && s.requests == d.requests[i := d.requests[i].(status := s.requests[i].status)]
    requires if s.requests[i].status == Released then s.seen == d.seen - {d.requests[i].key}
             else s.seen == d.seen && s.requests[i].status.Kept? && Young(d, d.requests[i].key, now)
    ensures SingleWhileYoung(s, now) && KeptOnce(s)
  {
    var key := d.requests[i].key;
    forall k ensures Young(s, k, now) <==> Young(d, k, now) {
      assert forall j :: 0 <= j < |d.requests| ==>
        s.requests[j].key == d.requests[j].key && s.requests[j].at == d.requests[j].at;
    }
    forall j | 0 <= j < |d.requests| && Young(d, d.requests[j].key, now) ensures Young(d, d.requests[j].key, t) {
      YoungEarlier(d, d.requests[j].key, t, now);
    }
    if s.requests[i].status.Kept? {
      YoungEarlier(d, key, t, now);
      assert forall j :: 0 <= j < |d.requests| && j != i && d.requests[j].key == key ==> !Held(d.requests[j]);
    }
  }

  lemma SingleStep(d: Desk, c: Config, e: Event, clock: Millis)
    requires Inv(d, c) && SingleWhileYoung(d, clock) && KeptOnce(d) && Next(clock, e) && Landable(d, c, e)
    ensures var s := Step(d, c, e); SingleWhileYoung(s, Moment(e)) && KeptOnce(s)
  {
    match e
    case BeginCall(q) =>
      SingleBegun(d, c, q, clock, q.admittedAt);
      hide Begin, Inv, SingleWhileYoung, KeptOnce;
    case FinishCall(i, a, now) =>
      if i < |d.requests| && d.requests[i].status == InFlight {
        FinishFields(d, c, i, a);
        hide Finish, Inv, SingleWhileYoung, KeptOnce, Young, Fails;
        SingleFinished(d, Finish(d, c, i, a), i, clock, now);
      } else {
        SingleLater(d, d, clock, now);
      }
  }

  lemma {:induction false} SingleRun(c: Config, es: seq<Event>)
    requires Ordered(es) && LandableRun(c, es)
    ensures SingleWhileYoung(Run(c, es), Clock(es)) && KeptOnce(Run(c, es))
  {
    hide Inv, Step, Landable, Next, Moment, SingleWhileYoung, KeptOnce;
    if es == [] {
      NothingHeld(c);
    } else {
      SingleRun(c, es[..|es| - 1]);
      SingleStep(Run(c, es[..|es| - 1]), c, es[|es| - 1], Clock(es[..|es| - 1]));
    }
  }

  lemma NothingHeld(c: Config)
    ensures SingleWhileYoung(Run(c, []), 0) && KeptOnce(Run(c, []))
  {
  }

  /** If the cluster takes no message later than the window after the first request with it, then in every run in
      time order, late failures included, no message is cosigned and kept twice, however far apart; and until
      then at most one request for it is in flight or kept. */
  lemma NoMessageKeptTwice(c: Config, es: seq<Event>)
    requires Ordered(es) && LandableRun(c, es)
    ensures var d := Run(c, es);
      && (forall i, j :: 0 <= i < j < |d.requests| && d.requests[i].status.Kept? && d.requests[j].status.Kept? ==>
            d.requests[i].key != d.requests[j].key)
      && (forall i, j ::
           0 <= i < j < |d.requests| && d.requests[i].key == d.requests[j].key
           && Young(d, d.requests[i].key, Clock(es)) ==>
            !Held(d.requests[i]) || !Held(d.requests[j]))
  {
    SingleRun(c, es);
    hide Run, Inv, Young, Held, Clock;
  }
}
