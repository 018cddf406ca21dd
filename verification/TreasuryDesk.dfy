/** The treasury's rent-payment desk as the program keeps it: a limiter, a plan registry and a map of message
    hashes, all changed in place, with any number of requests between their first half and their second. */
module TreasuryDesk {
  import opened Basics
  import T = Treasury
  import CS = Cosigning
  import L = Limits
  import RL = RateLimiter
  import RP = RentPlan
  import RR = RentPlanRegistry

  /** What a request holds on to while it waits for the cluster. */
  datatype Ticket = Ticket(key: T.Hash, fee: nat, reservation: RL.Reservation, undo: RR.UndoHandle)

  class Desk {
    const config: T.Config
    const limiter: RL.Limiter
    const registry: RR.Registry
    var seen: map<T.Hash, Millis>
    ghost var requests: seq<T.Request>

    ghost predicate Wired()
      reads this, limiter, limiter.hist, registry, registry.cells, registry.undos
    {
      limiter.Valid() && registry.Valid() && limiter.config == config.limits
    }

    ghost function Abs(): (d: T.Desk)
      requires Wired()
      reads this, limiter, limiter.hist, registry, registry.cells, registry.undos
      ensures RP.Wired(d.plans)
    {
      T.Desk(RL.Values(limiter.hist), registry.Abs(), seen, requests)
    }

    ghost predicate Valid()
      reads this, limiter, limiter.hist, registry, registry.cells, registry.undos
    {
      Wired() && T.Inv(Abs(), config)
    }

    /** `t` is the ticket of request `i` of this desk. */
    ghost predicate Issued(t: Ticket, i: nat)
      reads this, limiter, registry
    {
      && i < |requests| && i < |registry.undos| && registry.undos[i] == t.undo
      && limiter.Reserved(t.reservation) && t.reservation.cell.id == requests[i].entry
      && t.key == requests[i].key && t.fee == requests[i].fee
    }

    constructor (config: T.Config)
      ensures Valid() && Abs() == T.OPENING && this.config == config && fresh(limiter) && fresh(registry)
    {
      var l := new RL.Limiter(config.limits);
      var r := new RR.Registry();
      this.config, limiter, registry, seen, requests := config, l, r, map[], [];
      new;
      hide *;
      NothingYet(config);
      Conclude(T.OPENING);
    }

    static lemma NothingYet(config: T.Config)
      ensures T.Inv(T.OPENING, config) && RL.Values([]) == [] && T.OPENING == T.Desk([], RP.EMPTY, map[], [])
    {
      assert RP.Inv(RP.EMPTY);
    }

    /** Forgets the hashes older than the replay window. */
    method Forget(now: Millis)
      modifies this`seen
      ensures seen == T.Unexpired(old(seen), now)
    {
      var todo := seen.Keys;
      ghost var all := seen;
      while todo != {}
        invariant todo <= all.Keys && seen.Keys <= all.Keys
        invariant forall k :: k in all ==> (k in seen <==> k in todo || now - all[k] <= T.REPLAY_WINDOW_MS)
        invariant forall k :: k in seen ==> seen[k] == all[k]
        decreases todo
      {
        var k :| k in todo;
        if now - seen[k] > T.REPLAY_WINDOW_MS {
          seen := seen - {k};
        }
        todo := todo - {k};
      }
    }

    /** The limiter's and the registry's part of `Begin`, with the booking cancelled when the plan refuses. */
    method Claim(q: T.Call, ghost h: L.History, ghost p: RP.Registry)
        returns (r: Result<(RL.Reservation, RR.UndoHandle), T.Refusal>)
      requires limiter.Valid() && registry.Valid() && limiter.clock <= q.reservedAt && limiter.config == config.limits
      requires h == RL.Values(limiter.hist) && registry.Wired() && p == registry.Abs()
      modifies limiter, registry, registry.cells
      ensures limiter.Valid() && registry.Valid() && registry.Wired()
      ensures Claimed(q, h, p, RL.Values(limiter.hist), registry.Abs(), if r.Success? then None else Some(r.error))
      ensures r.Success? ==>
        limiter.Reserved(r.value.0) && r.value.0.cell.id == |h| && |registry.undos| == |p.handles| + 1
                             && registry.undos[|p.handles|] == r.value.1
    {
      hide *;
      registry.Opened();
      var booked := limiter.Reserve(q.wallet, config.maxSpend + q.fee, q.reservedAt);
      if booked.Failure? {
        LimitedClaim(q, h, p, booked.error);
        return Failure(T.RateLimited(booked.error));
      }
      var admitted := registry.Admit(q.wallet, q.use, q.walletSigns, q.admittedAt);
      registry.Opened();
      AdmittedClaim(q, h, p);
      if admitted.Failure? {
        limiter.Cancel(booked.value);
        return Failure(T.PlanRefused(admitted.error));
      }
      return Success((booked.value, admitted.value));
    }

    lemma LimitedClaim(q: T.Call, h: L.History, p: RP.Registry, scope: L.Scope)
      requires RP.Wired(p)
        && L.Refused(h, config.limits, q.wallet, config.maxSpend + q.fee, q.reservedAt) == Some(scope)
      ensures Claimed(q, h, p, h, p, Some(T.RateLimited(scope)))
      ensures L.Reserve(h, config.limits, q.wallet, config.maxSpend + q.fee, q.reservedAt) == h
    {
      hide L.Refused, RP.Admit;
    }

    lemma AdmittedClaim(q: T.Call, h: L.History, p: RP.Registry)
      requires RP.Wired(p) && L.Refused(h, config.limits, q.wallet, config.maxSpend + q.fee, q.reservedAt) == None
      ensures var booked := L.Reserve(h, config.limits, q.wallet, config.maxSpend + q.fee, q.reservedAt);
        var a := RP.Admit(p, q.wallet, q.use, q.walletSigns, q.admittedAt);
        && |booked| == |h| + 1
        && match a.outcome
           case Failure(why) => Claimed(q, h, p, L.Cancel(booked, |h|), a.after, Some(T.PlanRefused(why)))
           case Success(_) => Claimed(q, h, p, booked, a.after, None)
    {
      hide L.Refused, RP.Admit;
    }

    /** What a claim does to the limiter's history and the plans. */
    ghost predicate Claimed(q: T.Call, h: L.History, p: RP.Registry, h': L.History, p': RP.Registry,
                            refused: Option<T.Refusal>)
      requires RP.Wired(p)
    {
      var worst := config.maxSpend + q.fee;
      match L.Refused(h, config.limits, q.wallet, worst, q.reservedAt)
      case Some(scope) => refused == Some(T.RateLimited(scope)) && h' == h && p' == p
      case None =>
        var booked := L.Reserve(h, config.limits, q.wallet, worst, q.reservedAt);
        var a := RP.Admit(p, q.wallet, q.use, q.walletSigns, q.admittedAt);
        match a.outcome
        case Failure(why) => refused == Some(T.PlanRefused(why)) && h' == L.Cancel(booked, |h|) && p' == a.after
        case Success(_) => refused == None && h' == booked && p' == a.after
    }

    lemma Opened()
      requires Valid()
      ensures Wired()
    {
    }

    lemma Start(d: T.Desk)
      requires Valid() && d == Abs()
      ensures limiter.Valid() && registry.Valid() && registry.Wired() && limiter.config == config.limits
      ensures T.Inv(d, config) && RP.Wired(d.plans) && |registry.undos| == |d.plans.handles| == |d.requests|
      ensures d == T.Desk(RL.Values(limiter.hist), registry.Abs(), seen, requests)
    {
    }

    lemma Conclude(d: T.Desk)
      requires limiter.Valid() && registry.Valid() && registry.Wired() && limiter.config == config.limits
        && T.Inv(d, config)
      requires d == T.Desk(RL.Values(limiter.hist), registry.Abs(), seen, requests)
      ensures Valid() && Abs() == d
    {
    }

    lemma BeginAsClaimed(d: T.Desk, q: T.Call, h: L.History, p: RP.Registry, refused: Option<T.Refusal>)
      requires RP.Wired(d.plans)
      requires q.key !in T.Unexpired(d.seen, q.now) ==> Claimed(q, d.limiter, d.plans, h, p, refused)
      ensures var s, seen := T.Begin(d, config, q), T.Unexpired(d.seen, q.now);
        if q.key in seen then s == T.Started(d.(seen := seen), Failure(T.Replay))
        else if refused.Some? then s == T.Started(T.Desk(h, p, seen, d.requests), Failure(refused.value))
        else s == T.Started(T.Desk(h, p, seen[q.key := q.now],
                                   d.requests
                                     + [T.Request(q.wallet, q.key, q.now, q.reservedAt, q.fee, |d.limiter|,
                                     T.InFlight)]),
                            Success(|d.requests|))
    {
      hide L.Refused, RP.Admit, T.Unexpired;
    }

    lemma IssuedNow(t: Ticket, i: nat)
      requires i < |requests| && i < |registry.undos| && registry.undos[i] == t.undo
      requires limiter.Reserved(t.reservation) && t.reservation.cell.id == requests[i].entry
      requires t.key == requests[i].key && t.fee == requests[i].fee
      ensures Issued(t, i)
    {
    }

    /** A checked request, up to its first await. */
    method Begin(q: T.Call) returns (r: Result<Ticket, T.Refusal>)
      requires Valid() && limiter.clock <= q.reservedAt
      modifies this`seen, this`requests, limiter, registry, registry.cells
      ensures Valid() && Abs() == T.Begin(old(Abs()), config, q).desk
      ensures match T.Begin(old(Abs()), config, q).outcome
              case Success(i) => r.Success? && Issued(r.value, i)
              case Failure(why) => r == Failure(why)
    {
      hide *;
      Opened();
      ghost var d := Abs();
      Start(d);
      T.BeginInv(d, config, q);
      Forget(q.now);
      if q.key in seen {
        BeginAsClaimed(d, q, d.limiter, d.plans, None);
        Conclude(d.(seen := seen));
        r := Failure(T.Replay);
      } else {
        r := Proceed(q, d);
      }
    }

    /** Past the replay check. */
    method Proceed(q: T.Call, ghost d: T.Desk) returns (r: Result<Ticket, T.Refusal>)
      requires limiter.Valid() && registry.Valid() && registry.Wired() && limiter.config == config.limits
      requires limiter.clock <= q.reservedAt && RP.Wired(d.plans) && T.Inv(T.Begin(d, config, q).desk, config)
      requires T.Desk(RL.Values(limiter.hist), registry.Abs(), seen, requests) == d.(seen := T.Unexpired(d.seen, q.now))
      requires q.key !in T.Unexpired(d.seen, q.now) && |d.plans.handles| == |d.requests|
      modifies this`seen, this`requests, limiter, registry, registry.cells
      ensures Valid() && Abs() == T.Begin(d, config, q).desk
      ensures match T.Begin(d, config, q).outcome
              case Success(i) => r.Success? && Issued(r.value, i)
              case Failure(why) => r == Failure(why)
    {
      hide *;
      var claim := Claim(q, d.limiter, d.plans);
      BeginAsClaimed(d, q, RL.Values(limiter.hist), registry.Abs(), if claim.Success? then None else Some(claim.error));
      if claim.Failure? {
        Conclude(T.Begin(d, config, q).desk);
        r := Failure(claim.error);
      } else {
        ghost var i := |d.requests|;
        ghost var request := T.Request(q.wallet, q.key, q.now, q.reservedAt, q.fee, |d.limiter|, T.InFlight);
        var t := Ticket(q.key, q.fee, claim.value.0, claim.value.1);
        Record(t, q.now, request);
        Conclude(T.Begin(d, config, q).desk);
        IssuedNow(t, i);
        r := Success(t);
      }
    }

    method Record(t: Ticket, now: Millis, ghost request: T.Request)
      requires limiter.Valid() && registry.Valid() && registry.Wired()
      modifies this`seen, this`requests
      ensures limiter.Valid() && registry.Valid() && registry.Wired()
      ensures seen == old(seen)[t.key := now] && requests == old(requests) + [request]
      ensures RL.Values(limiter.hist) == old(RL.Values(limiter.hist)) && registry.Abs() == old(registry.Abs())
      ensures limiter.Reserved(t.reservation) == old(limiter.Reserved(t.reservation))
    {
      hide *;
      seen := seen[t.key := now];
      requests := requests + [request];
    }

    lemma TicketParts(t: Ticket, i: nat)
      requires Valid() && Issued(t, i)
      ensures i < |requests| && t.key == requests[i].key && t.fee == requests[i].fee
      ensures limiter.Reserved(t.reservation) && t.reservation.cell.id == requests[i].entry < |RL.Values(limiter.hist)|
      ensures t.undo in registry.undos && t.undo.id == i < |registry.Abs().handles|
    {
    }

    lemma FinishAsDone(d: T.Desk, i: nat, a: CS.Answer)
      requires RP.Wired(d.plans) && i < |d.requests| && d.requests[i].entry < |d.limiter| && i < |d.plans.handles|
      ensures var v, r := CS.Cosign(config.live, CS.Bounds(config.maxSpend, true), a), d.requests[i];
        T.Finish(d, config, i, a) ==
        if v.Failed? then
          T.Desk(L.Cancel(d.limiter, r.entry), RP.Undo(d.plans, i), d.seen - {r.key},
          d.requests[i := r.(status := T.Released)])
        else T.Desk(L.Commit(d.limiter, r.entry, CS.Booked(v.spent, r.fee)), d.plans, d.seen,
                    d.requests[i := r.(status := T.Kept(CS.Booked(v.spent, r.fee)))])
    {
      hide CS.Cosign, RP.Undo;
    }

    /** The outcome of a request arrives. */
    method Finish(t: Ticket, a: CS.Answer, ghost i: nat) returns (v: CS.Verdict)
      requires Valid() && Issued(t, i) && requests[i].status == T.InFlight
      modifies this`seen, this`requests, limiter, t.reservation.cell, registry, registry.cells, t.undo
      ensures Valid() && v == CS.Cosign(config.live, CS.Bounds(config.maxSpend, true), a)
      ensures i < |old(Abs()).plans.handles| && old(Abs()).requests[i].entry < |old(Abs()).limiter|
      ensures Abs() == T.Finish(old(Abs()), config, i, a)
    {
      hide *;
      Opened();
      ghost var d := Abs();
      Start(d);
      TicketParts(t, i);
      T.FinishInv(d, config, i, a);
      FinishAsDone(d, i, a);
      v := CS.Cosign(config.live, CS.Bounds(config.maxSpend, true), a);
      if v.Failed? {
        Release(t, i, d);
      } else {
        Keep(t, i, CS.Booked(v.spent, t.fee), d);
      }
      Conclude(T.Finish(d, config, i, a));
    }

    /** It may have landed: the booking becomes what it cost. */
    method Keep(t: Ticket, ghost i: nat, booked: nat, ghost d: T.Desk)
      requires limiter.Valid() && registry.Valid() && registry.Wired() && i < |requests|
      requires d == T.Desk(RL.Values(limiter.hist), registry.Abs(), seen, requests)
      requires limiter.Reserved(t.reservation) && t.reservation.cell.id < |d.limiter|
      modifies this`requests, t.reservation.cell
      ensures limiter.Valid() && registry.Valid() && registry.Wired()
      ensures T.Desk(RL.Values(limiter.hist), registry.Abs(), seen, requests) ==
              T.Desk(L.Commit(d.limiter, t.reservation.cell.id, booked), d.plans, d.seen,
                d.requests[i := d.requests[i].(status := T.Kept(booked))])
    {
      hide *;
      limiter.Commit(t.reservation, booked);
      requests := requests[i := requests[i].(status := T.Kept(booked))];
    }

    /** Nothing landed: the hash is forgotten, the plan change taken back, the booking dropped. */
    method Release(t: Ticket, ghost i: nat, ghost d: T.Desk)
      requires limiter.Valid() && registry.Valid() && registry.Wired() && i < |requests|
      requires d == T.Desk(RL.Values(limiter.hist), registry.Abs(), seen, requests)
      requires limiter.Reserved(t.reservation) && t.reservation.cell.id < |d.limiter|
      requires RP.Wired(d.plans) && t.undo in registry.undos && t.undo.id < |d.plans.handles|
      modifies this`seen, this`requests, limiter, t.reservation.cell, registry, registry.cells, t.undo
      ensures limiter.Valid() && registry.Valid() && registry.Wired()
      ensures T.Desk(RL.Values(limiter.hist), registry.Abs(), seen, requests) ==
              T.Desk(L.Cancel(d.limiter, t.reservation.cell.id), RP.Undo(d.plans, t.undo.id), d.seen - {t.key},
                     d.requests[i := d.requests[i].(status := T.Released)])
    {
      hide *;
      seen := seen - {t.key};
      TakeBack(t.undo);
      limiter.Cancel(t.reservation);
      requests := requests[i := requests[i].(status := T.Released)];
    }

    method TakeBack(undo: RR.UndoHandle)
      requires registry.Valid() && registry.Wired() && undo in registry.undos
      modifies registry, registry.cells, undo
      ensures registry.Valid() && registry.Wired() && registry.Abs() == RP.Undo(old(registry.Abs()), undo.id)
    {
      hide RP.Undo, RP.Inv;
      registry.Undo(undo);
    }
  }
}
