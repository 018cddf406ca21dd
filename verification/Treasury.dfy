/** A rent payment request (`sponsorRentPayment`, backend/src/treasury.ts) in two halves: `Begin`, everything up
    to the first await, happens at once, and `Finish`, the outcome, arrives after any number of other requests. */
module Treasury {
  import opened Basics
  import opened Cosigning
  import L = Limits
  import RP = RentPlan
  import RPU = RentPlanUndo

  const REPLAY_WINDOW_MS := 300_000

  /** A message hash; only equality matters. */
  type Hash = nat

  datatype Config = Config(limits: L.Config, maxSpend: nat, live: bool)

  datatype Status = InFlight | Kept(booked: nat) | Released

  /** A request past the synchronous checks. Its undo closure is the one of the same number. */
  datatype Request = Request(wallet: Address, key: Hash, at: Millis, reservedAt: Millis, fee: nat, entry: nat,
                     status: Status)

  datatype Desk = Desk(limiter: L.History, plans: RP.Registry, seen: map<Hash, Millis>, requests: seq<Request>)

  const OPENING := Desk([], RP.EMPTY, map[], [])

  /** A checked transaction: whose it is, its message hash, the contexts it uses and its worst-case fee.
      The clock is read for the replay map, again by the limiter, and again by the registry. */
  datatype Call = Call(wallet: Address, key: Hash, use: RP.ContextUse, walletSigns: bool, fee: nat,
                       now: Millis, reservedAt: Millis, admittedAt: Millis)

  datatype Refusal = Replay | RateLimited(scope: L.Scope) | PlanRefused(why: RP.Refusal)

  datatype Started = Started(desk: Desk, outcome: Result<nat, Refusal>)

  function Unexpired(seen: map<Hash, Millis>, now: Millis): map<Hash, Millis> {
    map k | k in seen && now - seen[k] <= REPLAY_WINDOW_MS :: seen[k]
  }

  ghost function Begin(d: Desk, c: Config, q: Call): (s: Started)
    requires RP.Wired(d.plans)
    ensures RP.Wired(s.desk.plans)
  {
    var seen := Unexpired(d.seen, q.now);
    if q.key in seen then Started(d.(seen := seen), Failure(Replay))
    else match L.Refused(d.limiter, c.limits, q.wallet, c.maxSpend + q.fee, q.reservedAt)
      case Some(scope) => Started(d.(seen := seen), Failure(RateLimited(scope)))
      case None =>
        var booked := L.Reserve(d.limiter, c.limits, q.wallet, c.maxSpend + q.fee, q.reservedAt);
        var a := RP.Admit(d.plans, q.wallet, q.use, q.walletSigns, q.admittedAt);
        match a.outcome
        case Failure(why) =>
          Started(Desk(L.Cancel(booked, |d.limiter|), a.after, seen, d.requests), Failure(PlanRefused(why)))
        case Success(_) =>
          Started(Desk(booked, a.after, seen[q.key := q.now],
                       d.requests + [Request(q.wallet, q.key, q.now, q.reservedAt, q.fee, |d.limiter|, InFlight)]),
                  Success(|d.requests|))
  }

  /** The outcome of request `i` arrives. */
  ghost function Finish(d: Desk, c: Config, i: nat, a: Answer): (s: Desk)
    requires RP.Wired(d.plans) && i < |d.requests| && d.requests[i].entry < |d.limiter| && i < |d.plans.handles|
    ensures RP.Wired(s.plans)
  {
    var r := d.requests[i];
    match Cosign(c.live, Bounds(c.maxSpend, true), a)
    case Failed(_) =>
      Desk(L.Cancel(d.limiter, r.entry), RP.Undo(d.plans, i), d.seen - {r.key}, d.requests[i := r.(status := Released)])
    case v =>
      d.(limiter := L.Commit(d.limiter, r.entry, Booked(v.spent, r.fee)),
         requests := d.requests[i := r.(status := Kept(Booked(v.spent, r.fee)))])
  }

  predicate Fails(c: Config, a: Answer) {
    Cosign(c.live, Bounds(c.maxSpend, true), a).Failed?
  }

  // ---- what every reachable desk keeps ----

  /** The limiter entry and the undo closure of request `i` are where its status says. */
  ghost predicate Settled(d: Desk, c: Config, i: nat)
    requires i < |d.requests|
  {
    var r := d.requests[i];
    && r.entry < |d.limiter| && i < |d.plans.handles|
    && var e, h := d.limiter[r.entry], d.plans.handles[i];
    && e.wallet == r.wallet == h.wallet && e.at == r.reservedAt
    && match r.status
       case InFlight => e.open && !e.cancelled && e.lamports == c.maxSpend + r.fee && !h.undone
       case Kept(booked) => !e.open && !e.cancelled && e.lamports == booked <= c.maxSpend + r.fee && !h.undone
       case Released => !e.open && e.cancelled && h.undone
  }

  ghost predicate Backed(d: Desk, e: nat) {
    exists i :: 0 <= i < |d.requests| && d.requests[i].entry == e
  }

  ghost predicate Inv(d: Desk, c: Config) {
    && RP.Inv(d.plans) && |d.plans.handles| == |d.requests|
    && (forall i :: 0 <= i < |d.requests| ==> Settled(d, c, i))
    && (forall i, j :: 0 <= i < j < |d.requests| ==> d.requests[i].entry < d.requests[j].entry)
    && (forall e :: 0 <= e < |d.limiter| && !d.limiter[e].cancelled ==> Backed(d, e))
  }

  lemma AdmitHandles(r: RP.Registry, w: Address, use: RP.ContextUse, walletSigns: bool, now: Millis)
    requires RP.Inv(r)
    ensures var a := RP.Admit(r, w, use, walletSigns, now);
      && RP.Inv(a.after)
      && match a.outcome
         case Failure(_) => a.after.handles == r.handles
         case Success(h) => h == |r.handles| && |a.after.handles| == h + 1 && a.after.handles[..h] == r.handles
                            && a.after.handles[h].wallet == w && !a.after.handles[h].undone
  {
    RP.AdmitInv(r, w, use, walletSigns, now);
    hide RP.Inv;
  }

  lemma UndoHandles(r: RP.Registry, i: nat)
    requires RP.Inv(r) && i < |r.handles|
    ensures var s := RP.Undo(r, i);
      && RP.Inv(s) && |s.handles| == |r.handles|
      && s.handles[i].undone && s.handles[i].wallet == r.handles[i].wallet
      && forall j :: 0 <= j < |r.handles| && j != i ==> s.handles[j] == r.handles[j]
  {
    RPU.UndoInv(r, i);
    hide RP.Inv, RP.Restored, RP.Effective;
  }

  /** A request refused after its reservation leaves a cancelled entry and nothing else. */
  lemma CancelledAtOnce(d: Desk, s: Desk, c: Config, e: L.Entry)
    requires Inv(d, c) && RP.Inv(s.plans) && s.plans.handles == d.plans.handles && s.requests == d.requests
    requires s.limiter == d.limiter + [e] && e.cancelled
    ensures Inv(s, c)
  {
    forall i | 0 <= i < |s.requests| ensures Settled(s, c, i) {
      assert Settled(d, c, i);
    }
    forall k | 0 <= k < |s.limiter| && !s.limiter[k].cancelled ensures Backed(s, k) {
      assert Backed(d, k);
    }
  }

  lemma AddedAtOnce(d: Desk, s: Desk, c: Config, e: L.Entry, r: Request, n: nat)
    requires Inv(d, c) && RP.Inv(s.plans) && n == |d.requests|
    requires |s.plans.handles| == n + 1 && s.plans.handles[..n] == d.plans.handles
    requires s.plans.handles[n].wallet == r.wallet && !s.plans.handles[n].undone
    requires s.requests == d.requests + [r] && r.entry == |d.limiter| && r.status == InFlight
    requires s.limiter == d.limiter + [e] && e == L.Entry(r.wallet, r.reservedAt, c.maxSpend + r.fee, true, false)
    ensures Inv(s, c)
  {
    forall i | 0 <= i < |s.requests| ensures Settled(s, c, i) {
      if i < n {
        assert Settled(d, c, i);
        assert s.plans.handles[i] == s.plans.handles[..n][i];
      }
    }
    forall k | 0 <= k < |s.limiter| && !s.limiter[k].cancelled ensures Backed(s, k) {
      if k == |d.limiter| {
        assert s.requests[n].entry == k;
      } else {
        var i :| 0 <= i < |d.requests| && d.requests[i].entry == k;
        assert s.requests[i].entry == k;
      }
    }
    forall i | 0 <= i < n ensures d.requests[i].entry < |d.limiter| {
      assert Settled(d, c, i);
    }
  }

  lemma Untouched(d: Desk, s: Desk, c: Config)
    requires Inv(d, c) && s == d.(seen := s.seen)
    ensures Inv(s, c)
  {
    forall i | 0 <= i < |s.requests| ensures Settled(s, c, i) {
      assert Settled(d, c, i);
    }
    forall k | 0 <= k < |s.limiter| && !s.limiter[k].cancelled ensures Backed(s, k) {
      assert Backed(d, k);
    }
  }

  /** The three ways a request can start. */
  lemma BeginCases(d: Desk, c: Config, q: Call)
    requires RP.Wired(d.plans)
    ensures var s, a := Begin(d, c, q), RP.Admit(d.plans, q.wallet, q.use, q.walletSigns, q.admittedAt);
      var e := L.Entry(q.wallet, q.reservedAt, c.maxSpend + q.fee, true, false);
      match s.outcome
      case Success(i) =>
        && a.outcome.Success? && i == |d.requests| && s.desk.plans == a.after && s.desk.limiter == d.limiter + [e]
        && s.desk.requests == d.requests + [Request(q.wallet, q.key, q.now, q.reservedAt, q.fee, |d.limiter|, InFlight)]
        && s.desk.seen == Unexpired(d.seen, q.now)[q.key := q.now]
        && q.key !in Unexpired(d.seen, q.now)
        && L.Refused(d.limiter, c.limits, q.wallet, c.maxSpend + q.fee, q.reservedAt) == None
      case Failure(PlanRefused(_)) =>
        && a.outcome.Failure? && s.desk.plans == a.after && s.desk.requests == d.requests
        && s.desk.limiter == d.limiter + [e.(cancelled := true, open := false)]
        && s.desk.seen == Unexpired(d.seen, q.now)
      case Failure(_) => s.desk == d.(seen := Unexpired(d.seen, q.now))
  {
    hide RP.Admit, L.Refused, Unexpired;
  }

  lemma InvPlans(d: Desk, c: Config)
    requires Inv(d, c)
    ensures RP.Inv(d.plans) && RP.Wired(d.plans) && |d.plans.handles| == |d.requests|
  {
  }

  lemma BeginInv(d: Desk, c: Config, q: Call)
    requires Inv(d, c)
    ensures Inv(Begin(d, c, q).desk, c)
  {
    hide *;
    InvPlans(d, c);
    BeginCases(d, c, q);
    AdmitHandles(d.plans, q.wallet, q.use, q.walletSigns, q.admittedAt);
    var s := Begin(d, c, q);
    match s.outcome
    case Success(i) => AddedAtOnce(d, s.desk, c, s.desk.limiter[|d.limiter|], s.desk.requests[i], i);
    case Failure(PlanRefused(_)) => CancelledAtOnce(d, s.desk, c, s.desk.limiter[|d.limiter|]);
    case Failure(_) => Untouched(d, s.desk, c);
  }

  /** How an outcome takes `d` to `s`, changing request `i`, its entry and its undo closure only. */
  ghost predicate Finished(d: Desk, s: Desk, i: nat) {
    && i < |d.requests| && d.requests[i].entry < |d.limiter| && i < |d.plans.handles|
    && s.requests
      == d.requests[i := d.requests[i].(status := if i < |s.requests| then s.requests[i].status else InFlight)]
    && |s.limiter| == |d.limiter| && |s.plans.handles| == |d.plans.handles|
    && (forall e :: 0 <= e < |d.limiter| && e != d.requests[i].entry ==> s.limiter[e] == d.limiter[e])
    && (forall j :: 0 <= j < |d.plans.handles| && j != i ==> s.plans.handles[j] == d.plans.handles[j])
  }

  lemma FinishedInv(d: Desk, s: Desk, c: Config, i: nat)
    requires Inv(d, c) && Finished(d, s, i) && RP.Inv(s.plans) && Settled(s, c, i)
    ensures Inv(s, c)
  {
    forall j | 0 <= j < |s.requests| ensures Settled(s, c, j) {
      assert Settled(d, c, j);
      assert j < i ==> d.requests[j].entry < d.requests[i].entry;
      assert i < j ==> d.requests[i].entry < d.requests[j].entry;
    }
    forall k | 0 <= k < |s.limiter| && !s.limiter[k].cancelled ensures Backed(s, k) {
      if k == d.requests[i].entry {
        assert s.requests[i].entry == k;
      } else {
        var j :| 0 <= j < |d.requests| && d.requests[j].entry == k;
        assert s.requests[j].entry == k;
      }
    }
  }

  lemma FinishReleases(d: Desk, c: Config, i: nat, a: Answer)
    requires RP.Inv(d.plans) && RP.Wired(d.plans) && i < |d.requests| && Settled(d, c, i)
      && d.requests[i].status == InFlight && Fails(c, a)
    ensures var s := Finish(d, c, i, a); Finished(d, s, i) && RP.Inv(s.plans) && Settled(s, c, i)
  {
    hide RP.Inv, RP.Undo, Cosign;
    UndoHandles(d.plans, i);
  }

  lemma FinishKeeps(d: Desk, c: Config, i: nat, a: Answer)
    requires RP.Inv(d.plans) && RP.Wired(d.plans) && i < |d.requests| && Settled(d, c, i)
      && d.requests[i].status == InFlight && !Fails(c, a)
    ensures var s := Finish(d, c, i, a); Finished(d, s, i) && RP.Inv(s.plans) && Settled(s, c, i)
  {
    CosignBooks(c.live, Bounds(c.maxSpend, true), a, d.requests[i].fee, 0);
    hide RP.Inv, RP.Undo, Cosign, MayLand, Booked, Spent;
  }

  lemma FinishIsFinished(d: Desk, c: Config, i: nat, a: Answer)
    requires Inv(d, c) && i < |d.requests| && d.requests[i].status == InFlight
    ensures d.requests[i].entry < |d.limiter|
    ensures var s := Finish(d, c, i, a); Finished(d, s, i) && RP.Inv(s.plans) && Settled(s, c, i)
  {
    InvPlans(d, c);
    assert Settled(d, c, i) && d.requests[i].entry < |d.limiter|;
    hide *;
    if Fails(c, a) {
      FinishReleases(d, c, i, a);
    } else {
      FinishKeeps(d, c, i, a);
    }
  }

  lemma FinishInv(d: Desk, c: Config, i: nat, a: Answer)
    requires Inv(d, c) && i < |d.requests| && d.requests[i].status == InFlight
    ensures d.requests[i].entry < |d.limiter|
    ensures Inv(Finish(d, c, i, a), c)
  {
    FinishIsFinished(d, c, i, a);
    FinishedInv(d, Finish(d, c, i, a), c, i);
  }
}
