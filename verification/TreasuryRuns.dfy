/** What holds over every run of rent payment requests, however their outcomes interleave: the limiter, the
    replay map and the plan registry move together, the caps hold, and (with one condition on failures that
    arrive late) no message is cosigned twice inside the replay window. */
module TreasuryRuns {
  import opened Basics
  import opened Treasury
  import opened Cosigning
  import L = Limits
  import RP = RentPlan

  datatype Event = BeginCall(call: Call) | FinishCall(request: nat, answer: Answer, now: Millis)

  ghost function Step(d: Desk, c: Config, e: Event): (s: Desk)
    requires Inv(d, c)
    ensures Inv(s, c)
  {
    match e
    case BeginCall(q) =>
      BeginInv(d, c, q);
      Begin(d, c, q).desk
    case FinishCall(i, a, _) =>
      if i < |d.requests| && d.requests[i].status == InFlight then
        FinishInv(d, c, i, a);
        Finish(d, c, i, a)
      else d
  }

  lemma OpeningInv(c: Config)
    ensures Inv(OPENING, c)
  {
    assert RP.Inv(RP.EMPTY);
  }

  ghost function Run(c: Config, es: seq<Event>): (d: Desk)
    ensures Inv(d, c)
  {
    OpeningInv(c);
    if es == [] then OPENING else Step(Run(c, es[..|es| - 1]), c, es[|es| - 1])
  }

  /** Of every request, the limiter entry and the plan change are both kept when its outcome is sent,
      mock-cosigned or unknown, and both taken back when it failed; until then both are held. Its booking
      is never above its reservation. The third thing a request holds, its message hash, has its own theorems,
      because it expires: `TreasuryReplay.ReplayRefusedExactly` says when it is remembered. */
  lemma KeptOrReleasedTogether(c: Config, es: seq<Event>, i: nat)
    requires i < |Run(c, es).requests|
    ensures |Run(c, es).plans.handles| == |Run(c, es).requests|
    ensures Run(c, es).requests[i].entry < |Run(c, es).limiter|
    ensures var d := Run(c, es);
      var r, h := d.requests[i], d.plans.handles[i];
      var e := d.limiter[r.entry];
      && e.wallet == r.wallet == h.wallet
      && (e.cancelled <==> r.status == Released) && (h.undone <==> r.status == Released)
      && (e.open <==> r.status == InFlight)
      && (r.status.Kept? ==> e.lamports == r.status.booked <= c.maxSpend + r.fee)
  {
    var d := Run(c, es);
    assert Settled(d, c, i);
    hide Run, Inv, RP.Inv;
  }

  /** Every booking that was not cancelled is some request's: a refusal on the way in leaves none behind. */
  lemma EveryBookingIsARequest(c: Config, es: seq<Event>, e: nat)
    requires e < |Run(c, es).limiter| && !Run(c, es).limiter[e].cancelled
    ensures Backed(Run(c, es), e)
  {
  }

  /** Contexts never belong to two wallets, whatever fails and whenever. */
  lemma NoContextShared(c: Config, es: seq<Event>, v: Address, w: Address, x: Address)
    requires RP.Owns(Run(c, es).plans, v, x) && RP.Owns(Run(c, es).plans, w, x)
    ensures v == w
  {
  }

  // ---- the limiter counts the requests that were not released, and nothing else ----

  function Share(c: Config, r: Request): nat {
    match r.status
    case InFlight => c.maxSpend + r.fee
    case Kept(booked) => booked
    case Released => 0
  }

  predicate Counts(r: Request, who: L.Who, from: int, to: int) {
    r.status != Released && (who == L.Everyone || r.wallet == who.wallet) && from <= r.reservedAt <= to
  }

  function Shares(c: Config, rs: seq<Request>, who: L.Who, from: int, to: int): nat {
    if rs == [] then 0
    else Shares(c, rs[..|rs| - 1], who, from, to) + if Counts(rs[|rs| - 1], who, from, to) then Share(c, rs[|rs| - 1])
      else 0
  }

  function Number(rs: seq<Request>, who: L.Who, from: int, to: int): nat {
    if rs == [] then 0
    else Number(rs[..|rs| - 1], who, from, to) + if Counts(rs[|rs| - 1], who, from, to) then 1 else 0
  }

  /** The first `m` requests are those whose entries are among the first `n`. */
  ghost predicate Splits(d: Desk, n: nat, m: nat) {
    && n <= |d.limiter| && m <= |d.requests|
    && (m == 0 || d.requests[m - 1].entry < n)
    && (m == |d.requests| || n <= d.requests[m].entry)
  }

  lemma LastEntry(h: L.History, n: nat, who: L.Who, from: int, to: int)
    requires 0 < n <= |h|
    ensures var e := h[n - 1];
      && L.Booked(h[..n], who, from, to)
        == L.Booked(h[..n - 1], who, from, to) + (if L.InWindow(e, who, from, to) then e.lamports else 0)
      && L.Count(h[..n], who, from, to)
        == L.Count(h[..n - 1], who, from, to) + (if L.InWindow(e, who, from, to) then 1 else 0)
  {
    assert h[..n][..n - 1] == h[..n - 1];
  }

  lemma LastShare(c: Config, rs: seq<Request>, m: nat, who: L.Who, from: int, to: int)
    requires 0 < m <= |rs|
    ensures var r := rs[m - 1];
      && Shares(c, rs[..m], who, from, to)
        == Shares(c, rs[..m - 1], who, from, to) + (if Counts(r, who, from, to) then Share(c, r) else 0)
      && Number(rs[..m], who, from, to)
        == Number(rs[..m - 1], who, from, to) + (if Counts(r, who, from, to) then 1 else 0)
  {
    assert rs[..m][..m - 1] == rs[..m - 1];
  }

  lemma EntryIsShare(d: Desk, c: Config, i: nat, who: L.Who, from: int, to: int)
    requires i < |d.requests| && Settled(d, c, i)
    ensures var r := d.requests[i];
      var e := d.limiter[r.entry];
      && (L.InWindow(e, who, from, to) <==> Counts(r, who, from, to))
      && (L.InWindow(e, who, from, to) ==> e.lamports == Share(c, r))
  {
  }

  lemma {:induction false} EntriesAreShares(d: Desk, c: Config, n: nat, m: nat, who: L.Who, from: int, to: int)
    requires Inv(d, c) && Splits(d, n, m)
    ensures n <= |d.limiter| && m <= |d.requests|
    ensures L.Booked(d.limiter[..n], who, from, to) == Shares(c, d.requests[..m], who, from, to)
    ensures L.Count(d.limiter[..n], who, from, to) == Number(d.requests[..m], who, from, to)
  {
    hide *;
    SplitsBounds(d, n, m);
    if n == 0 {
      NothingYet(d, c, m, who, from, to);
    } else if m > 0 && d.requests[m - 1].entry == n - 1 {
      Backing(d, c, n, m);
      LastEntry(d.limiter, n, who, from, to);
      EntryIsShare(d, c, m - 1, who, from, to);
      LastShare(c, d.requests, m, who, from, to);
      EntriesAreShares(d, c, n - 1, m - 1, who, from, to);
    } else {
      Unbacked(d, c, n, m);
      NotInWindow(d.limiter[n - 1], who, from, to);
      LastEntry(d.limiter, n, who, from, to);
      EntriesAreShares(d, c, n - 1, m, who, from, to);
    }
  }

  lemma SplitsBounds(d: Desk, n: nat, m: nat)
    requires Splits(d, n, m)
    ensures n <= |d.limiter| && m <= |d.requests|
  {
  }

  lemma NothingYet(d: Desk, c: Config, m: nat, who: L.Who, from: int, to: int)
    requires Splits(d, 0, m)
    ensures L.Booked(d.limiter[..0], who, from, to) == Shares(c, d.requests[..m], who, from, to)
    ensures L.Count(d.limiter[..0], who, from, to) == Number(d.requests[..m], who, from, to)
  {
    assert d.limiter[..0] == [] && d.requests[..m] == [];
  }

  lemma NotInWindow(e: L.Entry, who: L.Who, from: int, to: int)
    ensures e.cancelled ==> !L.InWindow(e, who, from, to)
  {
  }

  lemma Backing(d: Desk, c: Config, n: nat, m: nat)
    requires Inv(d, c) && Splits(d, n, m) && 0 < n && 0 < m && d.requests[m - 1].entry == n - 1
    ensures Settled(d, c, m - 1) && Splits(d, n - 1, m - 1)
  {
    assert m > 1 ==> d.requests[m - 2].entry < d.requests[m - 1].entry;
  }

  lemma Unbacked(d: Desk, c: Config, n: nat, m: nat)
    requires Inv(d, c) && 0 < n && Splits(d, n, m)
    requires m > 0 ==> d.requests[m - 1].entry != n - 1
    ensures d.limiter[n - 1].cancelled && Splits(d, n - 1, m)
  {
    forall i | 0 <= i < |d.requests| ensures d.requests[i].entry != n - 1 {
      assert i < m - 1 ==> d.requests[i].entry < d.requests[m - 1].entry;
      assert i > m ==> d.requests[m].entry < d.requests[i].entry;
    }
  }

  /** Over any window, what the limiter has booked for a wallet, or for everyone, is the worst case of the
      requests still in flight and the actual cost of those kept; it counts exactly these requests. */
  lemma LimiterCountsRequests(c: Config, es: seq<Event>, who: L.Who, from: int, to: int)
    ensures var d := Run(c, es);
      && L.Booked(d.limiter, who, from, to) == Shares(c, d.requests, who, from, to)
      && L.Count(d.limiter, who, from, to) == Number(d.requests, who, from, to)
  {
    var d := Run(c, es);
    forall i | 0 <= i < |d.requests| ensures d.requests[i].entry < |d.limiter| {
      assert Settled(d, c, i);
    }
    EntriesAreShares(d, c, |d.limiter|, |d.requests|, who, from, to);
    assert d.limiter[..|d.limiter|] == d.limiter && d.requests[..|d.requests|] == d.requests;
  }

  // ---- runs in time order ----

  /** When the last clock reading of an event is taken. */
  function Moment(e: Event): Millis {
    match e
    case BeginCall(q) => q.admittedAt
    case FinishCall(_, _, now) => now
  }

  function Clock(es: seq<Event>): Millis {
    if es == [] then 0 else Moment(es[|es| - 1])
  }

  predicate Next(clock: Millis, e: Event) {
    match e
    case BeginCall(q) => clock <= q.now <= q.reservedAt <= q.admittedAt
    case FinishCall(_, _, now) => clock <= now
  }

  predicate Ordered(es: seq<Event>) {
    es == [] || (Ordered(es[..|es| - 1]) && Next(Clock(es[..|es| - 1]), es[|es| - 1]))
  }

  ghost predicate Past(d: Desk, clock: Millis) {
    && L.NotBefore(d.limiter, clock)
    && (forall i :: 0 <= i < |d.requests| ==> d.requests[i].at <= clock)
  }

  lemma StepPast(d: Desk, c: Config, e: Event, clock: Millis)
    requires Inv(d, c) && Past(d, clock) && Next(clock, e)
    ensures Past(Step(d, c, e), Moment(e))
  {
    hide Inv, RP.Inv;
    match e
    case BeginCall(q) =>
      assert RP.Wired(d.plans) by { InvPlans(d, c); }
      BeginCases(d, c, q);
      hide Begin;
    case FinishCall(i, a, _) =>
      if i < |d.requests| && d.requests[i].status == InFlight {
        FinishFields(d, c, i, a);
        hide Finish;
      }
  }

  /** What an outcome changes, and what it leaves alone. */
  lemma FinishFields(d: Desk, c: Config, i: nat, a: Answer)
    requires Inv(d, c) && i < |d.requests| && d.requests[i].status == InFlight
    ensures d.requests[i].entry < |d.limiter| && i < |d.plans.handles| && RP.Wired(d.plans)
    ensures d.limiter[d.requests[i].entry].open
      && d.limiter[d.requests[i].entry].lamports == c.maxSpend + d.requests[i].fee
    ensures var s, r := Finish(d, c, i, a), d.requests[i];
      if Fails(c, a) then
        && s.limiter == L.Cancel(d.limiter, r.entry) && s.plans == RP.Undo(d.plans, i) && s.seen == d.seen - {r.key}
        && s.requests == d.requests[i := r.(status := Released)]
      else
        && s.plans == d.plans && s.seen == d.seen && s.requests == d.requests[i := s.requests[i]]
        && s.requests[i].status.Kept? && s.requests[i] == r.(status := s.requests[i].status)
        && s.requests[i].status.booked <= c.maxSpend + r.fee
        && s.limiter == L.Commit(d.limiter, r.entry, s.requests[i].status.booked)
  {
    assert Settled(d, c, i);
    CosignBooks(c.live, Bounds(c.maxSpend, true), a, d.requests[i].fee, 0);
    hide Cosign, MayLand, RP.Undo;
  }

  lemma {:induction false} RunPast(c: Config, es: seq<Event>)
    requires Ordered(es)
    ensures Past(Run(c, es), Clock(es))
  {
    if es != [] {
      RunPast(c, es[..|es| - 1]);
      StepPast(Run(c, es[..|es| - 1]), c, es[|es| - 1], Clock(es[..|es| - 1]));
    }
  }

  // ---- the caps ----

  lemma StepWithinCaps(d: Desk, c: Config, e: Event, clock: Millis)
    requires Inv(d, c) && Past(d, clock) && Next(clock, e) && L.WithinCaps(d.limiter, c.limits)
    ensures L.WithinCaps(Step(d, c, e).limiter, c.limits)
  {
    match e
    case BeginCall(q) =>
      InvPlans(d, c);
      BeginCases(d, c, q);
      var reserve := L.ReserveCall(q.wallet, c.maxSpend + q.fee, q.reservedAt);
      L.StepWithin(d.limiter, c.limits, reserve);
      var t := L.Step(d.limiter, c.limits, reserve);
      if |d.limiter| < |t| {
        L.StepWithin(t, c.limits, L.CancelCall(|d.limiter|));
      }
      RefusedLimiter(d, c, q);
      hide *;
    case FinishCall(i, a, _) =>
      if i < |d.requests| && d.requests[i].status == InFlight {
        FinishFields(d, c, i, a);
        hide Finish, L.WithinCaps, Inv, Fails;
        var k := d.requests[i].entry;
        if Fails(c, a) {
          L.StepWithin(d.limiter, c.limits, L.CancelCall(k));
        } else {
          L.StepWithin(d.limiter, c.limits, L.CommitCall(k, Finish(d, c, i, a).requests[i].status.booked));
        }
      }
  }

  /** The limiter after a request starts: as it was, with the reservation, or with it cancelled. */
  lemma RefusedLimiter(d: Desk, c: Config, q: Call)
    requires Inv(d, c)
    ensures var s := Begin(d, c, q).desk.limiter;
      var t := L.Step(d.limiter, c.limits, L.ReserveCall(q.wallet, c.maxSpend + q.fee, q.reservedAt));
      || s == d.limiter || s == t
      || (|d.limiter| < |t| && s == L.Step(t, c.limits, L.CancelCall(|d.limiter|)))
    ensures Step(d, c, BeginCall(q)).limiter == Begin(d, c, q).desk.limiter
  {
    hide RP.Admit, L.Refused, RP.Inv;
  }

  /** The caps hold at every instant of every run in time order, failures and unknown outcomes included. */
  lemma {:induction false} CapsHold(c: Config, es: seq<Event>)
    requires Ordered(es)
    ensures L.WithinCaps(Run(c, es).limiter, c.limits)
  {
    if es == [] {
      assert forall who, t :: L.WithinCapsAt([], c.limits, who, t);
    } else {
      CapsHold(c, es[..|es| - 1]);
      RunPast(c, es[..|es| - 1]);
      StepWithinCaps(Run(c, es[..|es| - 1]), c, es[|es| - 1], Clock(es[..|es| - 1]));
    }
  }
}
