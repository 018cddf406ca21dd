/** The path one transaction takes through the cluster's answers when the treasury cosigns it
    (`cosignAndSend`, backend/src/treasury.ts), and what is booked for it. */
module Cosigning {
  import opened Basics
  import L = Limits

  datatype Simulation = Unreachable | Errs | NoAccount | Leaves(lamports: nat)

  /** What sending came to: an error may prove that the transaction did not land, or leave it open. */
  datatype Send = Accepted | NotLanded | Undecided

  /** The cluster's answers, in the order they are asked for. A balance is None when reading it fails. */
  datatype Answer = Answer(before: Option<nat>, simulation: Simulation, later: Option<nat>, signs: bool, send: Send)

  datatype Bounds = Bounds(maxSpend: nat, allowCredit: bool)

  datatype Failure =
    | ReadFailed | SimulationFailed | SimulationIncomplete | RentTooHigh | UnexpectedCredit | SigningFailed
    | SendFailed

  datatype Verdict = Cosigned(spent: int) | Sent(spent: int) | Unknown(spent: int) | Failed(why: Failure)

  /** The larger of the two balances read around the simulation, less what the simulation leaves. */
  function Spent(before: nat, later: nat, leaves: nat): int {
    Max(before, later) - leaves
  }

  function Cosign(live: bool, bounds: Bounds, a: Answer): Verdict {
    if a.before == None then Failed(ReadFailed)
    else match a.simulation
      case Unreachable => Failed(ReadFailed)
      case Errs => Failed(SimulationFailed)
      case NoAccount => Failed(SimulationIncomplete)
      case Leaves(leaves) =>
        if a.later == None then Failed(ReadFailed)
        else
          var spent := Spent(a.before.value, a.later.value, leaves);
          if spent > bounds.maxSpend then Failed(RentTooHigh)
          else if spent < 0 && !bounds.allowCredit then Failed(UnexpectedCredit)
          else if !a.signs then Failed(SigningFailed)
          else if !live then Cosigned(spent)
          else match a.send
            case Accepted => Sent(spent)
            case NotLanded => Failed(SendFailed)
            case Undecided => Unknown(spent)
  }

  /** What a reservation is rewritten to. */
  function Booked(spent: int, fee: nat): nat {
    Max(spent, 0) + fee
  }

  /** A signed transaction exists that may be on chain, or could be put there. */
  predicate MayLand(live: bool, bounds: Bounds, a: Answer) {
    && a.before.Some? && a.simulation.Leaves? && a.later.Some? && a.signs
    && Spent(a.before.value, a.later.value, a.simulation.lamports) <= bounds.maxSpend
    && (bounds.allowCredit || Spent(a.before.value, a.later.value, a.simulation.lamports) >= 0)
    && (live ==> a.send != NotLanded)
  }

  /** The balance was read on both sides of a simulation that left an amount. */
  predicate AllRead(a: Answer) {
    a.before.Some? && a.simulation.Leaves? && a.later.Some?
  }

  /** Cosigning fails exactly when nothing that may land comes of it. Otherwise the verdict says whether the
      transaction was sent, may have been, or was only signed, and what it takes out of the treasury: the larger
      reading less what the simulation leaves. */
  lemma VerdictExactly(live: bool, bounds: Bounds, a: Answer)
    ensures Cosign(live, bounds, a).Failed? <==> !MayLand(live, bounds, a)
    ensures MayLand(live, bounds, a) ==>
      var spent := Max(a.before.value, a.later.value) - a.simulation.lamports;
      Cosign(live, bounds, a)
        == if !live then Cosigned(spent) else if a.send == Accepted then Sent(spent) else Unknown(spent)
  {
  }

  /** What each failure stands for: the first thing that goes wrong. */
  lemma FailuresExactly(live: bool, bounds: Bounds, a: Answer)
    ensures var v := Cosign(live, bounds, a);
      && (v == Failed(ReadFailed) <==>
            a.before.None? || a.simulation.Unreachable? || (a.simulation.Leaves? && a.later.None?))
      && (v == Failed(SimulationFailed) <==> a.before.Some? && a.simulation.Errs?)
      && (v == Failed(SimulationIncomplete) <==> a.before.Some? && a.simulation.NoAccount?)
    ensures AllRead(a) ==>
      var v, spent := Cosign(live, bounds, a), Max(a.before.value, a.later.value) - a.simulation.lamports;
      && (v == Failed(RentTooHigh) <==> spent > bounds.maxSpend)
      && (v == Failed(UnexpectedCredit) <==> spent < 0 && !bounds.allowCredit)
      && (v == Failed(SigningFailed) <==>
            spent <= bounds.maxSpend && (spent >= 0 || bounds.allowCredit) && !a.signs)
      && (v == Failed(SendFailed) <==>
            && spent <= bounds.maxSpend && (spent >= 0 || bounds.allowCredit) && a.signs
            && live && a.send == NotLanded)
  {
  }

  /** What cosigning books is within the worst case reserved. It covers what the transaction takes out of a
      balance of `pre`, and its fee, exactly when that balance is at most the larger of the two readings, or
      at most what the simulation leaves of it. */
  lemma CosignBooks(live: bool, bounds: Bounds, a: Answer, fee: nat, pre: nat)
    ensures var v := Cosign(live, bounds, a);
      !v.Failed? ==>
        && Booked(v.spent, fee) <= bounds.maxSpend + fee
        && (pre - a.simulation.lamports + fee <= Booked(v.spent, fee) <==>
              pre <= Max(a.before.value, a.later.value) || pre <= a.simulation.lamports)
  {
  }

  predicate Rising(balances: seq<nat>) {
    forall i :: 0 <= i < |balances| - 1 ==> balances[i] <= balances[i + 1]
  }

  predicate Falling(balances: seq<nat>) {
    forall i :: 0 <= i < |balances| - 1 ==> balances[i] >= balances[i + 1]
  }

  lemma {:induction false} OneWayIsBracketed(balances: seq<nat>, k: nat)
    requires k < |balances|
    ensures Rising(balances) ==> balances[k] <= balances[|balances| - 1]
    ensures Falling(balances) ==> balances[k] <= balances[0]
    decreases |balances|
  {
    var n := |balances| - 1;
    if k < n {
      OneWayIsBracketed(balances[..n], k);
    } else if n > 0 {
      OneWayIsBracketed(balances[..n], n - 1);
    }
  }

  /** Whenever the balance moves one way from the first reading to the second, the booking covers what the
      transaction takes out, whichever of the balances in between the simulation saw. */
  lemma OneWayIsCovered(live: bool, bounds: Bounds, a: Answer, fee: nat, balances: seq<nat>, k: nat)
    requires k < |balances| && (Rising(balances) || Falling(balances))
    requires a.before == Some(balances[0]) && a.later == Some(balances[|balances| - 1])
    ensures var v := Cosign(live, bounds, a);
      !v.Failed? ==> balances[k] - a.simulation.lamports + fee <= Booked(v.spent, fee)
  {
    OneWayIsBracketed(balances, k);
    CosignBooks(live, bounds, a, fee, balances[k]);
  }

  /** The account-setup route cancels on every error, after `cosignAndSend` has closed the reservation of
      an unknown outcome: what may have landed stays booked all the same, and everything else is dropped. */
  function Setup(h: L.History, i: nat, live: bool, maxSpend: nat, a: Answer, fee: nat): L.History
    requires i < |h|
  {
    match Cosign(live, Bounds(maxSpend, false), a)
    case Cosigned(spent) => L.Commit(h, i, Booked(spent, fee))
    case Sent(spent) => L.Commit(h, i, Booked(spent, fee))
    case Unknown(spent) => L.Cancel(L.Commit(h, i, Booked(spent, fee)), i)
    case Failed(_) => L.Cancel(h, i)
  }

  lemma SetupSettles(h: L.History, i: nat, live: bool, maxSpend: nat, a: Answer, fee: nat)
    requires i < |h| && h[i].open && !h[i].cancelled && h[i].lamports == maxSpend + fee
    ensures var t := Setup(h, i, live, maxSpend, a, fee);
      && |t| == |h| && !t[i].open && (t[i].cancelled <==> !MayLand(live, Bounds(maxSpend, false), a))
      && fee <= t[i].lamports <= maxSpend + fee
      && (MayLand(live, Bounds(maxSpend, false), a) ==>
            t[i].lamports == Max(a.before.value, a.later.value) - a.simulation.lamports + fee)
      && forall j :: 0 <= j < |h| && j != i ==> t[j] == h[j]
  {
  }
}
