/** The limiter and the chain together: what the treasury's own balance can fall by in a day. */
module TreasuryLoss {
  import opened Basics
  import opened Tables
  import T = Treasury
  import CS = Cosigning
  import TR = TreasuryRuns
  import L = Limits
  import RS = RentShape
  import C = ContextLedger
  import CD = ContextDebits
  import CR = ContextRuns
  import RP = RentPlan

  function BookedBy(r: T.Request): nat {
    if r.status.Kept? then r.status.booked else 0
  }

  /** The bookings of the requests numbered in `picks`. */
  function Chosen(rs: seq<T.Request>, picks: seq<nat>): nat
    requires forall k :: 0 <= k < |picks| ==> picks[k] < |rs|
  {
    if picks == [] then 0 else Chosen(rs, picks[..|picks| - 1]) + BookedBy(rs[picks[|picks| - 1]])
  }

  lemma {:induction false} ChosenWithout(rs: seq<T.Request>, picks: seq<nat>, p: nat)
    requires p < |picks| && forall k :: 0 <= k < |picks| ==> picks[k] < |rs|
    ensures Chosen(rs, picks) == Chosen(rs, picks[..p] + picks[p + 1..]) + BookedBy(rs[picks[p]])
  {
    var n := |picks| - 1;
    var rest := picks[..p] + picks[p + 1..];
    if p == n {
      assert rest == picks[..n];
    } else {
      ChosenWithout(rs, picks[..n], p);
      assert picks[..n][p + 1..] == picks[p + 1..n] && picks[..n][..p] == picks[..p];
      assert rest[..|rest| - 1] == picks[..p] + picks[p + 1..n];
    }
  }

  lemma {:induction false} ChosenOfPrefix(rs: seq<T.Request>, n: nat, picks: seq<nat>)
    requires n <= |rs| && forall k :: 0 <= k < |picks| ==> picks[k] < n
    ensures Chosen(rs[..n], picks) == Chosen(rs, picks)
  {
    if picks != [] {
      ChosenOfPrefix(rs, n, picks[..|picks| - 1]);
    }
  }

  ghost predicate MadeWithin(rs: seq<T.Request>, picks: seq<nat>, from: int, to: int) {
    Distinct(picks) && forall k :: 0 <= k < |picks| ==> picks[k] < |rs| && from <= rs[picks[k]].reservedAt <= to
  }

  /** Without the last request's number, the others are numbers of earlier requests. */
  lemma RestMadeWithin(rs: seq<T.Request>, picks: seq<nat>, p: nat, from: int, to: int)
    requires MadeWithin(rs, picks, from, to) && p < |picks| && picks[p] == |rs| - 1
    ensures var rest := picks[..p] + picks[p + 1..]; MadeWithin(rs[..|rs| - 1], rest, from, to)
  {
    var rest := picks[..p] + picks[p + 1..];
    forall k | 0 <= k < |rest| ensures rest[k] == picks[if k < p then k else k + 1] && rest[k] < |rs| - 1 {
    }
  }

  /** Bookings of different requests, all made in a window, are together within what was booked in it. */
  lemma {:induction false} ChosenWithinShares(c: T.Config, rs: seq<T.Request>, picks: seq<nat>, from: int, to: int)
    requires MadeWithin(rs, picks, from, to)
    ensures Chosen(rs, picks) <= TR.Shares(c, rs, L.Everyone, from, to)
    decreases |rs|
  {
    if rs == [] {
      assert picks == [];
    } else if p :| 0 <= p < |picks| && picks[p] == |rs| - 1 {
      PickedLast(c, rs, picks, p, from, to);
      ChosenWithinShares(c, rs[..|rs| - 1], picks[..p] + picks[p + 1..], from, to);
    } else {
      assert MadeWithin(rs[..|rs| - 1], picks, from, to);
      ChosenOfPrefix(rs, |rs| - 1, picks);
      ChosenWithinShares(c, rs[..|rs| - 1], picks, from, to);
    }
  }

  lemma PickedLast(c: T.Config, rs: seq<T.Request>, picks: seq<nat>, p: nat, from: int, to: int)
    requires MadeWithin(rs, picks, from, to) && p < |picks| && picks[p] == |rs| - 1
    ensures var rest := picks[..p] + picks[p + 1..];
      && MadeWithin(rs[..|rs| - 1], rest, from, to)
      && Chosen(rs, picks) - Chosen(rs[..|rs| - 1], rest)
         <= TR.Shares(c, rs, L.Everyone, from, to) - TR.Shares(c, rs[..|rs| - 1], L.Everyone, from, to)
  {
    var rest := picks[..p] + picks[p + 1..];
    RestMadeWithin(rs, picks, p, from, to);
    ChosenWithout(rs, picks, p);
    assert forall k :: 0 <= k < |rest| ==> rest[k] < |rs| - 1;
    ChosenOfPrefix(rs, |rs| - 1, rest);
    hide Chosen;
  }

  // ---- a landing is covered by its request's booking ----

  /** How a landing came about: the request it was cosigned for, the cluster's answer to it, and the ledger its
      simulation ran on, which was there just before landing `since`. */
  datatype Origin = Origin(request: nat, answer: CS.Answer, since: nat, simulated: C.Ledger)

  /** Request `p` was answered with `a`, and that was no failure. */
  ghost predicate Answered(c: T.Config, es: seq<TR.Event>, p: nat, a: CS.Answer) {
    exists e :: 0 <= e < |es| && AnsweredAt(c, es, e, p, a)
  }

  ghost predicate AnsweredAt(c: T.Config, es: seq<TR.Event>, e: nat, p: nat, a: CS.Answer)
    requires e < |es|
  {
    && es[e].FinishCall? && es[e].request == p && es[e].answer == a && !T.Fails(c, a)
    && var rs := TR.Run(c, es[..e]).requests;
       p < |rs| && rs[p].status == T.InFlight
  }

  lemma KeptStays(d: T.Desk, c: T.Config, e: TR.Event, p: nat)
    requires T.Inv(d, c) && p < |d.requests| && d.requests[p].status.Kept?
    ensures p < |TR.Step(d, c, e).requests| && TR.Step(d, c, e).requests[p] == d.requests[p]
  {
    hide T.Inv, RP.Inv;
    match e
    case BeginCall(q) =>
      T.InvPlans(d, c);
      T.BeginCases(d, c, q);
      hide T.Begin;
    case FinishCall(i, a, _) =>
      if i < |d.requests| && d.requests[i].status == T.InFlight {
        TR.FinishFields(d, c, i, a);
        hide T.Finish;
      }
  }

  /** Request `p` is kept, with what the answer `a` has it booked at. */
  ghost predicate BookedAs(d: T.Desk, c: T.Config, p: nat, a: CS.Answer) {
    var v := CS.Cosign(c.live, CS.Bounds(c.maxSpend, true), a);
    !v.Failed? && p < |d.requests| && d.requests[p].status == T.Kept(CS.Booked(v.spent, d.requests[p].fee))
  }

  lemma AnswerIsBooked(d: T.Desk, c: T.Config, e: TR.Event, p: nat, a: CS.Answer)
    requires T.Inv(d, c) && p < |d.requests| && d.requests[p].status == T.InFlight
    requires e.FinishCall? && e.request == p && e.answer == a && !T.Fails(c, a)
    ensures BookedAs(TR.Step(d, c, e), c, p, a)
  {
    TR.FinishFields(d, c, p, a);
    hide T.Inv, RP.Inv, CS.Cosign;
  }

  lemma BookedStays(d: T.Desk, c: T.Config, e: TR.Event, p: nat, a: CS.Answer)
    requires T.Inv(d, c) && BookedAs(d, c, p, a)
    ensures BookedAs(TR.Step(d, c, e), c, p, a)
  {
    KeptStays(d, c, e, p);
    hide TR.Step, T.Inv, CS.Cosign;
  }

  lemma RunLast(c: T.Config, es: seq<TR.Event>)
    requires es != []
    ensures T.Inv(TR.Run(c, es[..|es| - 1]), c) && TR.Run(c, es) == TR.Step(TR.Run(c, es[..|es| - 1]), c, es[|es| - 1])
  {
    hide TR.Step, T.Inv;
  }

  /** What was booked for a request at its answer stays booked. */
  lemma {:induction false} AnsweredIsKept(c: T.Config, es: seq<TR.Event>, p: nat, a: CS.Answer)
    requires Answered(c, es, p, a)
    ensures BookedAs(TR.Run(c, es), c, p, a)
  {
    hide T.Fails, T.Inv, TR.Run, TR.Step, BookedAs;
    var n := |es| - 1;
    var e :| 0 <= e < |es| && AnsweredAt(c, es, e, p, a);
    RunLast(c, es);
    if e == n {
      AnswerIsBooked(TR.Run(c, es[..n]), c, es[n], p, a);
    } else {
      assert es[..n][..e] == es[..e];
      assert AnsweredAt(c, es[..n], e, p, a);
      AnsweredIsKept(c, es[..n], p, a);
      BookedStays(TR.Run(c, es[..n]), c, es[n], p, a);
    }
  }

  /** What the simulation says of landing `k`. It ran on a ledger of this run, not after the landing; it did what
      the transaction does there; one of its readings, or what it leaves, reaches the balance it found
      (`Cosigning.CosignBooks` says why); and what the transaction closes at the landing brings in no less
      (`ContextDebits.DebitNoLargerExactly` says why). */
  ghost predicate Foreseen(start: C.Ledger, run: seq<CR.Landing>, k: nat, o: Origin, treasury: Address)
    requires k < |run|
  {
    var l, s, a := run[k], o.simulated, o.answer;
    && Between(start, run, k, o, treasury)
    && C.ExecuteAll(s, l.tx).Some? && a.simulation == CS.Leaves(C.ExecuteAll(s, l.tx).value.treasury)
    && a.before.Some? && a.later.Some?
    && (s.treasury <= Max(a.before.value, a.later.value) || s.treasury <= a.simulation.lamports)
    && (CR.TakesEffect(l) ==> CD.Refunds(s, l.tx) <= CD.Refunds(CR.Charged(l.before, l.fee), l.tx))
  }

  /** The simulation ran between landing `since - 1` and landing `since`, which is landing `k` at the latest. */
  ghost predicate Between(start: C.Ledger, run: seq<CR.Landing>, k: nat, o: Origin, treasury: Address)
    requires k < |run|
  {
    && o.since <= k && CR.OthersAct(CR.End(start, run[..o.since]), o.simulated, treasury)
    && CR.OthersAct(o.simulated, run[o.since].before, treasury)
  }

  /** What landing `k` closes was the treasury's in the simulation, and is closed by no other in between. */
  ghost predicate AuthorityKept(run: seq<CR.Landing>, k: nat, o: Origin, treasury: Address)
    requires k < |run|
  {
    forall x :: x in o.simulated.contexts && C.Closes(run[k].tx, x) ==>
      && o.simulated.contexts[x].authority == Some(treasury)
      && forall i :: o.since <= i < k && CR.TakesEffect(run[i]) ==> !C.Closes(run[i].tx, x)
  }

  /** Then it brings in no less at the landing. */
  lemma AuthorityKeptSuffices(start: C.Ledger, run: seq<CR.Landing>, k: nat, o: Origin, treasury: Address)
    requires CR.Run(start, run, treasury) && k < |run| && CR.TakesEffect(run[k])
    requires Between(start, run, k, o, treasury) && AuthorityKept(run, k, o, treasury)
    requires C.ExecuteAll(o.simulated, run[k].tx).Some?
    ensures CD.Refunds(o.simulated, run[k].tx) <= CD.Refunds(CR.Charged(run[k].before, run[k].fee), run[k].tx)
  {
    CR.LandingOf(start, run, treasury, k);
    forall x | x in o.simulated.contexts && C.Closes(run[k].tx, x)
      ensures CR.Keeps(run[k].before, x, treasury, o.simulated.contexts[x].lamports)
    {
      CR.UnclosedKeeps(start, run, treasury, o.since, k, o.simulated, x, o.simulated.contexts[x].lamports);
    }
    hide CR.Run, CR.OthersAct, C.ExecuteAll, CD.Refunds, C.Closes, AuthorityKept;
    CD.RefundsNoLess(o.simulated, CR.Charged(run[k].before, run[k].fee), run[k].tx);
  }

  /** Every landing of `run` is that of another kept request, as its answer foresaw it, at a fee no higher than the
      worst case. */
  ghost predicate Cosigned(c: T.Config, es: seq<TR.Event>, start: C.Ledger, run: seq<CR.Landing>, origins: seq<Origin>,
                           treasury: Address) {
    && |run| == |origins|
    && forall k :: 0 <= k < |run| ==>
         && Answered(c, es, origins[k].request, origins[k].answer) && Foreseen(start, run, k, origins[k], treasury)
         && origins[k].request < |TR.Run(c, es).requests|
         && run[k].fee <= TR.Run(c, es).requests[origins[k].request].fee
  }

  function Requests(origins: seq<Origin>): (picks: seq<nat>)
    ensures |picks| == |origins|
  {
    seq(|origins|, k requires 0 <= k < |origins| => origins[k].request)
  }

  /** A landing takes no more out of the treasury, its fee included, than was booked for its request. */
  lemma LandingIsBooked(c: T.Config, es: seq<TR.Event>, start: C.Ledger, run: seq<CR.Landing>, k: nat, o: Origin,
                        treasury: Address)
    requires CR.Run(start, run, treasury) && k < |run| && Answered(c, es, o.request, o.answer)
      && Foreseen(start, run, k, o, treasury)
    requires o.request < |TR.Run(c, es).requests| && run[k].fee <= TR.Run(c, es).requests[o.request].fee
    ensures run[k].before.treasury <= run[k].after.treasury + BookedBy(TR.Run(c, es).requests[o.request])
    ensures run[k].fee <= BookedBy(TR.Run(c, es).requests[o.request])
  {
    hide *;
    CR.LandingOf(start, run, treasury, k);
    AnsweredIsKept(c, es, o.request, o.answer);
    ForeseenMeans(start, run, k, o, treasury);
    if CR.TakesEffect(run[k]) {
      CD.DebitNoLargerExactly(o.simulated, CR.Charged(run[k].before, run[k].fee), run[k].tx);
    }
    DebitIsBooked(TR.Run(c, es), c, run[k], o);
  }

  lemma ForeseenMeans(start: C.Ledger, run: seq<CR.Landing>, k: nat, o: Origin, treasury: Address)
    requires k < |run| && Foreseen(start, run, k, o, treasury)
    ensures var a := o.answer;
      && C.ExecuteAll(o.simulated, run[k].tx).Some?
      && a.simulation == CS.Leaves(C.ExecuteAll(o.simulated, run[k].tx).value.treasury)
      && a.before.Some? && a.later.Some?
      && (o.simulated.treasury <= Max(a.before.value, a.later.value) || o.simulated.treasury <= a.simulation.lamports)
      && (CR.TakesEffect(run[k]) ==>
            && run[k].fee <= run[k].before.treasury
            && CD.Refunds(o.simulated, run[k].tx) <= CD.Refunds(CR.Charged(run[k].before, run[k].fee), run[k].tx))
  {
  }

  /** What a landing takes out, at most what it took out in the simulation, is within the booking. */
  lemma DebitIsBooked(d: T.Desk, c: T.Config, l: CR.Landing, o: Origin)
    requires BookedAs(d, c, o.request, o.answer) && o.request < |d.requests|
    requires l.fee <= l.before.treasury && l.fee <= d.requests[o.request].fee
    requires o.answer.before.Some? && o.answer.later.Some? && o.answer.simulation.Leaves?
    requires o.simulated.treasury <= Max(o.answer.before.value, o.answer.later.value)
      || o.simulated.treasury <= o.answer.simulation.lamports
    requires CR.TakesEffect(l) ==>
      CR.Charged(l.before, l.fee).treasury - l.after.treasury <= o.simulated.treasury - o.answer.simulation.lamports
    ensures l.before.treasury <= l.after.treasury + BookedBy(d.requests[o.request])
    ensures l.fee <= BookedBy(d.requests[o.request])
  {
    CS.CosignBooks(c.live, CS.Bounds(c.maxSpend, true), o.answer, d.requests[o.request].fee, o.simulated.treasury);
    hide CS.Cosign;
  }

  lemma {:induction false} FallIsBooked(rs: seq<T.Request>, start: C.Ledger, run: seq<CR.Landing>, picks: seq<nat>,
                                        treasury: Address)
    requires CR.Run(start, run, treasury) && |run| == |picks|
    requires forall k :: 0 <= k < |run| ==>
      picks[k] < |rs| && run[k].before.treasury <= run[k].after.treasury + BookedBy(rs[picks[k]])
    ensures start.treasury <= CR.End(start, run).treasury + Chosen(rs, picks)
  {
    if run != [] {
      FallIsBooked(rs, start, run[..|run| - 1], picks[..|run| - 1], treasury);
      hide C.Execute, C.ExecuteAll;
    }
  }

  /** The bookings of requests made within a day are within the global daily cap. */
  lemma DayIsCapped(c: T.Config, es: seq<TR.Event>, picks: seq<nat>, t: int)
    requires TR.Ordered(es) && MadeWithin(TR.Run(c, es).requests, picks, t - L.DAY_MS, t)
    ensures Chosen(TR.Run(c, es).requests, picks) <= c.limits.maxLamportsGlobalPerDay
  {
    var d := TR.Run(c, es);
    hide TR.Run, Chosen, TR.Ordered;
    ChosenWithinShares(c, d.requests, picks, t - L.DAY_MS, t);
    TR.LimiterCountsRequests(c, es, L.Everyone, t - L.DAY_MS, t);
    TR.CapsHold(c, es);
    assert L.WithinCapsAt(d.limiter, c.limits, L.Everyone, t);
  }

  /** Over any run of requests in time order, and any run of transactions landing for requests made within
      one day of each other, the treasury's balance falls by no more than the global daily cap, the fees of
      landings that take no effect included, whatever anyone else does in between. */
  lemma DailyFall(c: T.Config, es: seq<TR.Event>, start: C.Ledger, run: seq<CR.Landing>, origins: seq<Origin>,
                  treasury: Address, t: int)
    requires TR.Ordered(es) && CR.Run(start, run, treasury) && Cosigned(c, es, start, run, origins, treasury)
    requires MadeWithin(TR.Run(c, es).requests, Requests(origins), t - L.DAY_MS, t)
    ensures start.treasury <= CR.End(start, run).treasury + c.limits.maxLamportsGlobalPerDay
  {
    var d, picks := TR.Run(c, es), Requests(origins);
    hide CR.Run, TR.Run, Chosen, Answered, Foreseen, TR.Ordered;
    forall k | 0 <= k < |run|
      ensures picks[k] < |d.requests|
      && run[k].before.treasury <= run[k].after.treasury + BookedBy(d.requests[picks[k]]) {
      LandingIsBooked(c, es, start, run, k, origins[k], treasury);
    }
    FallIsBooked(d.requests, start, run, picks, treasury);
    DayIsCapped(c, es, picks, t);
  }

  // ---- the balance and the contexts together ----

  /** What landing `l` can lose beyond what is booked for it. */
  function HiddenBy(l: CR.Landing): nat {
    if CR.TakesEffect(l) then CD.Hidden(CR.Charged(l.before, l.fee), l.tx, l.rules) else 0
  }

  function HiddenOver(run: seq<CR.Landing>): nat {
    if run == [] then 0 else HiddenOver(run[..|run| - 1]) + HiddenBy(run[|run| - 1])
  }

  /** One landing lowers the treasury's lamports and claims by at most what is booked for it and what it hides. */
  lemma LandingTotal(start: C.Ledger, run: seq<CR.Landing>, k: nat, treasury: Address, booked: nat)
    requires CR.Run(start, run, treasury) && k < |run| && run[k].fee <= booked
    requires run[k].before.treasury <= run[k].after.treasury + booked
    ensures C.Secured(run[k].before, treasury) <= C.Secured(run[k].after, treasury) + booked + HiddenBy(run[k])
  {
    var l := run[k];
    CR.LandingOf(start, run, treasury, k);
    CR.ChargedSecured(l.before, l.fee, treasury);
    hide CR.Run, C.Secured, C.ExecuteAll, CD.Hidden, C.BareCreates, CD.Refunds, CD.ProvedRent, RS.Allowed;
    if CR.TakesEffect(l) {
      var s := CR.Charged(l.before, l.fee);
      CD.HiddenExactly(s, l.tx, l.rules);
      C.TransactionCost(s, l.tx, l.rules);
    }
  }

  lemma {:induction false} TotalIsBooked(rs: seq<T.Request>, start: C.Ledger, run: seq<CR.Landing>, picks: seq<nat>,
                                         treasury: Address)
    requires CR.Run(start, run, treasury) && |run| == |picks|
    requires forall k :: 0 <= k < |run| ==>
      && picks[k] < |rs| && run[k].fee <= BookedBy(rs[picks[k]])
      && run[k].before.treasury <= run[k].after.treasury + BookedBy(rs[picks[k]])
    ensures C.Secured(start, treasury) <= C.Secured(CR.End(start, run), treasury) + Chosen(rs, picks) + HiddenOver(run)
  {
    if run != [] {
      var n := |run| - 1;
      TotalIsBooked(rs, start, run[..n], picks[..n], treasury);
      LandingTotal(start, run, n, treasury, BookedBy(rs[picks[n]]));
      CR.OthersCannotTake(CR.End(start, run[..n]), run[n].before, treasury);
      hide C.Secured, C.ExecuteAll, CR.OthersAct, BookedBy, HiddenBy;
    }
  }

  /** The landings hide nothing: each that takes effect and pays for a range context without a proof closes no more
      than its other creates cost. */
  predicate NothingHidden(run: seq<CR.Landing>) {
    forall i :: 0 <= i < |run| && CR.TakesEffect(run[i]) ==>
      var l := run[i];
      || C.BareCreates(l.tx) * l.rules.rangeContextLamports == 0
      || CD.Refunds(CR.Charged(l.before, l.fee), l.tx) <= CD.ProvedRent(l.tx)
  }

  lemma {:induction false} NothingHiddenExactly(run: seq<CR.Landing>)
    ensures NothingHidden(run) <==> HiddenOver(run) == 0
  {
    hide CD.Refunds, CD.ProvedRent, C.BareCreates;
    if run != [] {
      var n := |run| - 1;
      NothingHiddenExactly(run[..n]);
      assert NothingHidden(run) ==> NothingHidden(run[..n]);
      assert NothingHidden(run) <==> NothingHidden(run[..n]) && HiddenBy(run[n]) == 0;
    }
  }

  /** Within a day the treasury's lamports and what it can claim from contexts fall together by no more than the
      global daily cap and what the landings hide; by no more than the cap, if they hide nothing. */
  lemma DailyTotalFall(c: T.Config, es: seq<TR.Event>, start: C.Ledger, run: seq<CR.Landing>, origins: seq<Origin>,
                       treasury: Address, t: int)
    requires TR.Ordered(es) && CR.Run(start, run, treasury) && Cosigned(c, es, start, run, origins, treasury)
    requires MadeWithin(TR.Run(c, es).requests, Requests(origins), t - L.DAY_MS, t)
    ensures var end, cap := CR.End(start, run), c.limits.maxLamportsGlobalPerDay;
      && C.Secured(start, treasury) <= C.Secured(end, treasury) + cap + HiddenOver(run)
      && (NothingHidden(run) ==> C.Secured(start, treasury) <= C.Secured(end, treasury) + cap)
  {
    var d, picks := TR.Run(c, es), Requests(origins);
    hide CR.Run, TR.Run, Chosen, Answered, Foreseen, TR.Ordered, C.Secured, BookedBy, NothingHidden;
    forall k | 0 <= k < |run|
      ensures picks[k] < |d.requests| && run[k].fee <= BookedBy(d.requests[picks[k]])
              && run[k].before.treasury <= run[k].after.treasury + BookedBy(d.requests[picks[k]])
    {
      LandingIsBooked(c, es, start, run, k, origins[k], treasury);
    }
    TotalIsBooked(d.requests, start, run, picks, treasury);
    DayIsCapped(c, es, picks, t);
    NothingHiddenExactly(run);
  }
}
