/** The replay guard. Every remembered message hash is that of a request not released, and while every such
    request is remembered no message is cosigned twice inside the replay window. A failure that arrives more
    than the window after its request began can forget another request's hash; exactly when is proved. While
    the cluster takes no message after the window, none is kept twice at all. */
module TreasuryReplay {
  import opened Basics
  import opened Treasury
  import opened TreasuryRuns
  import L = Limits
  import RP = RentPlan

  predicate Held(r: Request) {
    r.status != Released
  }

  /** No two requests for one message, neither of them released, began within the window of each other. */
  ghost predicate Once(d: Desk) {
    forall i, j ::
      0 <= i < j < |d.requests| && Held(d.requests[i]) && Held(d.requests[j])
      && d.requests[i].key == d.requests[j].key ==>
      d.requests[j].at - d.requests[i].at > REPLAY_WINDOW_MS
  }

  /** Request `r`, if not released and begun no longer than the window before `t`, is remembered. */
  predicate Guarded(d: Desk, r: Request, t: int) {
    Held(r) && t - r.at <= REPLAY_WINDOW_MS ==> r.key in d.seen && d.seen[r.key] == r.at
  }

  ghost predicate Remembered(d: Desk, t: int) {
    forall i :: 0 <= i < |d.requests| ==> Guarded(d, d.requests[i], t)
  }

  ghost predicate HeldBy(d: Desk, k: Hash, at: Millis) {
    exists i :: 0 <= i < |d.requests| && Held(d.requests[i]) && d.requests[i].key == k && d.requests[i].at == at
  }

  /** Nothing is remembered that no request holds. */
  ghost predicate NothingStray(d: Desk) {
    forall k :: k in d.seen ==> HeldBy(d, k, d.seen[k])
  }

  /** At `t`, the hash of request `i` is remembered for another request, inside the window. */
  predicate Intrudes(d: Desk, i: nat, t: int)
    requires i < |d.requests|
  {
    var r := d.requests[i];
    r.key in d.seen && d.seen[r.key] != r.at && t - d.seen[r.key] <= REPLAY_WINDOW_MS
  }

  // ---- one step ----

  /** Expired hashes are dropped; the requests stay as they are. */
  lemma PruneGuards(d: Desk, s: Desk, clock: int, now: Millis)
    requires Once(d) && Remembered(d, clock) && NothingStray(d) && clock <= now
    requires s.seen == Unexpired(d.seen, now) && s.requests == d.requests
    ensures Once(s) && Remembered(s, now) && NothingStray(s)
  {
    forall i | 0 <= i < |s.requests| ensures Guarded(s, s.requests[i], now) {
      assert Guarded(d, d.requests[i], clock);
    }
    forall k | k in s.seen ensures HeldBy(s, k, s.seen[k]) {
      assert HeldBy(d, k, d.seen[k]);
    }
  }

  lemma AddGuards(d: Desk, s: Desk, r: Request, now: Millis)
    requires Once(d) && Remembered(d, now) && NothingStray(d) && r.key !in d.seen && Held(r) && r.at == now
    requires s.seen == d.seen[r.key := now] && s.requests == d.requests + [r]
    ensures Once(s) && Remembered(s, now) && NothingStray(s)
  {
    forall i | 0 <= i < |d.requests| ensures Guarded(d, d.requests[i], now) && s.requests[i] == d.requests[i] {
    }
    assert s.requests[|d.requests|] == r;
    forall k | k in s.seen ensures HeldBy(s, k, s.seen[k]) {
      if k != r.key {
        var i :| 0 <= i < |d.requests| && Held(d.requests[i]) && d.requests[i].key == k
          && d.requests[i].at == d.seen[k];
        assert s.requests[i] == d.requests[i];
      }
    }
  }

  lemma BeginGuards(d: Desk, c: Config, q: Call, clock: int)
    requires Inv(d, c) && Once(d) && Remembered(d, clock) && NothingStray(d) && clock <= q.now
    ensures var s := Begin(d, c, q).desk; Once(s) && Remembered(s, q.now) && NothingStray(s)
  {
    InvPlans(d, c);
    BeginCases(d, c, q);
    var s := Begin(d, c, q);
    var pruned := d.(seen := Unexpired(d.seen, q.now));
    hide *;
    PruneGuards(d, pruned, clock, q.now);
    match s.outcome
    case Success(_) => AddGuards(pruned, s.desk, s.desk.requests[|d.requests|], q.now);
    case Failure(PlanRefused(_)) => PruneGuards(d, s.desk, clock, q.now);
    case Failure(_) =>
  }

  lemma KeepGuards(d: Desk, s: Desk, i: nat, clock: int, now: int)
    requires Once(d) && Remembered(d, clock) && NothingStray(d) && clock <= now && i < |d.requests|
      && Held(d.requests[i])
    requires s.seen == d.seen && |s.requests| == |d.requests| && s.requests == d.requests[i := s.requests[i]]
    requires Held(s.requests[i]) && s.requests[i] == d.requests[i].(status := s.requests[i].status)
    ensures Once(s) && Remembered(s, now) && NothingStray(s)
  {
    forall j | 0 <= j < |s.requests| ensures Guarded(s, s.requests[j], now) {
      assert Guarded(d, d.requests[j], clock);
    }
    forall k | k in s.seen ensures HeldBy(s, k, s.seen[k]) {
      var j :| 0 <= j < |d.requests| && Held(d.requests[j]) && d.requests[j].key == k && d.requests[j].at == d.seen[k];
      assert Held(s.requests[j]);
    }
  }

  /** A failed request's hash is forgotten; that forgets no other request's unless it intrudes. */
  lemma ReleaseGuards(d: Desk, s: Desk, i: nat, now: int)
    requires Once(d) && Remembered(d, now) && NothingStray(d) && i < |d.requests| && Held(d.requests[i])
    requires s.seen == d.seen - {d.requests[i].key} && s.requests == d.requests[i := d.requests[i].(status := Released)]
    ensures Once(s) && NothingStray(s)
    ensures Remembered(s, now) <==> !Intrudes(d, i, now)
  {
    var key := d.requests[i].key;
    forall k | k in s.seen ensures HeldBy(s, k, s.seen[k]) {
      var j :| 0 <= j < |d.requests| && Held(d.requests[j]) && d.requests[j].key == k && d.requests[j].at == d.seen[k];
      assert Held(s.requests[j]);
    }
    if Intrudes(d, i, now) {
      var j :| 0 <= j < |d.requests| && Held(d.requests[j]) && d.requests[j].key == key
        && d.requests[j].at == d.seen[key];
      assert !Guarded(s, s.requests[j], now);
    } else {
      forall j | 0 <= j < |s.requests| ensures Guarded(s, s.requests[j], now) {
        assert Guarded(d, d.requests[j], now);
        assert Guarded(d, d.requests[i], now);
      }
    }
  }

  lemma LaterRemembers(d: Desk, clock: int, now: int)
    requires Remembered(d, clock) && clock <= now
    ensures Remembered(d, now)
  {
    forall i | 0 <= i < |d.requests| ensures Guarded(d, d.requests[i], now) {
      assert Guarded(d, d.requests[i], clock);
    }
  }

  // ---- runs ----

  /** An event that is not the failure of a request whose hash is by then another's. */
  ghost predicate Clean(d: Desk, c: Config, e: Event) {
    match e
    case BeginCall(_) => true
    case FinishCall(i, a, now) =>
      i < |d.requests| && d.requests[i].status == InFlight && Fails(c, a) ==> !Intrudes(d, i, now)
  }

  ghost predicate CleanRun(c: Config, es: seq<Event>) {
    es == [] || (CleanRun(c, es[..|es| - 1]) && Clean(Run(c, es[..|es| - 1]), c, es[|es| - 1]))
  }

  lemma StepGuards(d: Desk, c: Config, e: Event, clock: Millis)
    requires Inv(d, c) && Once(d) && Remembered(d, clock) && NothingStray(d) && Next(clock, e)
    ensures var s := Step(d, c, e);
      && Once(s) && NothingStray(s)
      && (Remembered(s, Moment(e)) <==> Clean(d, c, e))
  {
    match e
    case BeginCall(q) =>
      BeginGuards(d, c, q, clock);
      LaterRemembers(Begin(d, c, q).desk, q.now, q.admittedAt);
      hide Begin, Inv, Once, Remembered, NothingStray;
    case FinishCall(i, a, now) =>
      LaterRemembers(d, clock, now);
      if i < |d.requests| && d.requests[i].status == InFlight {
        FinishFields(d, c, i, a);
        var s := Finish(d, c, i, a);
        hide Finish, Inv, Once, Remembered, NothingStray, Intrudes, Fails;
        if Fails(c, a) {
          ReleaseGuards(d, s, i, now);
        } else {
          KeepGuards(d, s, i, clock, now);
        }
      }
  }

  lemma {:induction false} CleanRunGuards(c: Config, es: seq<Event>)
    requires Ordered(es) && CleanRun(c, es)
    ensures Once(Run(c, es)) && Remembered(Run(c, es), Clock(es)) && NothingStray(Run(c, es))
  {
    if es != [] {
      CleanRunGuards(c, es[..|es| - 1]);
      StepGuards(Run(c, es[..|es| - 1]), c, es[|es| - 1], Clock(es[..|es| - 1]));
    }
  }

  /** In a clean run no message is cosigned twice inside the replay window, by requests in flight or kept. */
  lemma NoMessageCosignedTwice(c: Config, es: seq<Event>, i: nat, j: nat)
    requires Ordered(es) && CleanRun(c, es)
    requires i < j < |Run(c, es).requests| && Run(c, es).requests[i].key == Run(c, es).requests[j].key
    requires !Run(c, es).requests[i].status.Released? && !Run(c, es).requests[j].status.Released?
    ensures Run(c, es).requests[j].at - Run(c, es).requests[i].at > REPLAY_WINDOW_MS
  {
    CleanRunGuards(c, es);
  }

  /** After a clean run, an event leaves every held request's hash remembered (so that another call with it
      is refused) exactly when it is clean: when it is not a failure whose hash is by then another's. */
  lemma ForgottenExactly(c: Config, es: seq<Event>, e: Event)
    requires Ordered(es) && CleanRun(c, es) && Next(Clock(es), e)
    ensures Remembered(Step(Run(c, es), c, e), Moment(e)) <==> Clean(Run(c, es), c, e)
  {
    CleanRunGuards(c, es);
    StepGuards(Run(c, es), c, e, Clock(es));
  }

  /** After a clean run a call is refused as a replay exactly when some request for the same message, begun
      within the window, is in flight or kept. */
  lemma ReplayRefusedExactly(c: Config, es: seq<Event>, q: Call)
    requires Ordered(es) && CleanRun(c, es) && Clock(es) <= q.now
    ensures RP.Wired(Run(c, es).plans)
    ensures var d := Run(c, es);
      Begin(d, c, q).outcome == Failure(Replay) <==>
      exists i ::
        0 <= i < |d.requests| && Held(d.requests[i]) && d.requests[i].key == q.key
        && q.now - d.requests[i].at <= REPLAY_WINDOW_MS
  {
    hide *;
    var d := Run(c, es);
    CleanRunGuards(c, es);
    InvPlans(d, c);
    LaterRemembers(d, Clock(es), q.now);
    RefusedAsReplay(d, c, q);
    UnexpiredExactly(d, q);
  }

  lemma UnexpiredExactly(d: Desk, q: Call)
    requires Remembered(d, q.now) && NothingStray(d)
    ensures q.key in Unexpired(d.seen, q.now) <==>
      exists i ::
        0 <= i < |d.requests| && Held(d.requests[i]) && d.requests[i].key == q.key
        && q.now - d.requests[i].at <= REPLAY_WINDOW_MS
  {
    if q.key in Unexpired(d.seen, q.now) {
      assert HeldBy(d, q.key, d.seen[q.key]);
    }
    if i :| (0 <= i < |d.requests| && Held(d.requests[i]) && d.requests[i].key == q.key
             && q.now - d.requests[i].at <= REPLAY_WINDOW_MS)
    {
      assert Guarded(d, d.requests[i], q.now);
    }
  }

  lemma RefusedAsReplay(d: Desk, c: Config, q: Call)
    requires RP.Wired(d.plans)
    ensures Begin(d, c, q).outcome == Failure(Replay) <==> q.key in Unexpired(d.seen, q.now)
  {
    hide RP.Admit, L.Refused, Unexpired;
  }

  // ---- failures that arrive within the window are clean ----

  /** An event that is not the failure of a request begun longer than the window ago. */
  ghost predicate Timely(d: Desk, c: Config, e: Event) {
    match e
    case BeginCall(_) => true
    case FinishCall(i, a, now) =>
      i < |d.requests| && d.requests[i].status == InFlight && Fails(c, a) ==> now - d.requests[i].at <= REPLAY_WINDOW_MS
  }

  ghost predicate TimelyRun(c: Config, es: seq<Event>) {
    es == [] || (TimelyRun(c, es[..|es| - 1]) && Timely(Run(c, es[..|es| - 1]), c, es[|es| - 1]))
  }

  lemma TimelyIsClean(d: Desk, c: Config, e: Event, clock: Millis)
    requires Once(d) && NothingStray(d) && Past(d, clock) && Next(clock, e) && Timely(d, c, e)
    ensures Clean(d, c, e)
  {
    match e
    case BeginCall(_) =>
    case FinishCall(i, a, now) =>
      if i < |d.requests| && d.requests[i].status == InFlight && Fails(c, a) && d.requests[i].key in d.seen {
        var k := d.requests[i].key;
        var j :| 0 <= j < |d.requests| && Held(d.requests[j]) && d.requests[j].key == k
          && d.requests[j].at == d.seen[k];
        assert Held(d.requests[i]);
      }
  }

  /** With every failure arriving within the window of its request, every run is clean. */
  lemma {:induction false} TimelyRunsAreClean(c: Config, es: seq<Event>)
    requires Ordered(es) && TimelyRun(c, es)
    ensures CleanRun(c, es)
  {
    if es != [] {
      var earlier := es[..|es| - 1];
      TimelyRunsAreClean(c, earlier);
      CleanRunGuards(c, earlier);
      RunPast(c, earlier);
      TimelyIsClean(Run(c, earlier), c, es[|es| - 1], Clock(earlier));
    }
  }
}
