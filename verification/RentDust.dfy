/** Rent dust (backend/src/treasury.ts): a wallet is given the rent of its first accounts once, unless it holds
    enough already. Calls take network round trips, so any number are under way together; a set of wallets,
    marked before the first await and released on every path without a grant, keeps them apart. */
module RentDust {
  import opened Basics
  import L = Limits

  /** What the cluster said the wallet held when the call looked, how much the wallet had spent by then, and which
      calls' transfers had landed; the program sees only the balance. */
  datatype Reading = Reading(amount: nat, balance: nat, spent: nat, landed: set<nat>)

  datatype Stage = Checking | Deciding | Sending(entry: nat) | Granted | NotGranted

  /** `reading` is there once the cluster answered, `sent` once the transfer is on its way; `landed` says whether
      the transfer took effect, which a call that saw it fail does not know. */
  datatype Call = Call(wallet: Address, stage: Stage, reading: Option<Reading>, sent: bool, landed: bool) {
    function Amount(): nat { if reading.Some? then reading.value.amount else 0 }
  }

  /** A wallet's lamports on the cluster, and what it has spent so far. */
  datatype Purse = Purse(balance: nat, spent: nat)

  datatype Dust = Dust(granted: set<Address>, limiter: L.History, calls: seq<Call>, purses: map<Address, Purse>)

  const EMPTY := Dust({}, [], [], map[])

  function PurseOf(d: Dust, w: Address): Purse {
    if w in d.purses then d.purses[w] else Purse(0, 0)
  }

  datatype Event =
    | Ask(wallet: Address)
    | ReadFailed(call: nat)
    | Look(call: nat, amount: nat)           // the rents are known, and the cluster reads the balance
    | Decide(call: nat, now: Millis)         // the answer arrives
    | SendSucceeded(call: nat)
    | SendFailed(call: nat)
    | Land(call: nat)                        // the transfer takes effect, perhaps after it was given up
    | Receive(wallet: Address, lamports: nat)
    | Spend(wallet: Address, lamports: nat)

  /** The calls of which the transfer has landed. */
  function Landed(d: Dust): set<nat> {
    set i | 0 <= i < |d.calls| && d.calls[i].landed
  }

  function With(d: Dust, i: nat, k: Call): Dust
    requires i < |d.calls|
  {
    d.(calls := d.calls[i := k])
  }

  function Release(d: Dust, i: nat): Dust
    requires i < |d.calls|
  {
    With(d, i, d.calls[i].(stage := NotGranted)).(granted := d.granted - {d.calls[i].wallet})
  }

  predicate IsSending(d: Dust, i: nat) {
    i < |d.calls| && d.calls[i].stage.Sending? && d.calls[i].stage.entry < |d.limiter|
  }

  /** A wallet already marked is answered at once; that leaves no call. The treasury's own wallet is refused. */
  function Step(d: Dust, c: L.Config, treasury: Address, e: Event): Dust {
    match e
    case Ask(w) =>
      if w == treasury || w in d.granted then d
      else d.(granted := d.granted + {w}, calls := d.calls + [Call(w, Checking, None, false, false)])
    case ReadFailed(i) => if i < |d.calls| && d.calls[i].stage.Checking? then Release(d, i) else d
    case Look(i, amount) =>
      if i < |d.calls| && d.calls[i].stage.Checking? then
        var p := PurseOf(d, d.calls[i].wallet);
        With(d, i, d.calls[i].(stage := Deciding, reading := Some(Reading(amount, p.balance, p.spent, Landed(d)))))
      else d
    case Decide(i, now) =>
      if !(i < |d.calls| && d.calls[i].stage.Deciding? && d.calls[i].reading.Some?) then d
      else
        var k := d.calls[i];
        if k.reading.value.balance >= k.Amount() || L.Refused(d.limiter, c, k.wallet, k.Amount(), now).Some? then
          Release(d, i)
        else With(d, i, k.(stage := Sending(|d.limiter|), sent := true))
               .(limiter := L.Reserve(d.limiter, c, k.wallet, k.Amount(), now))
    case SendSucceeded(i) =>
      if IsSending(d, i) && d.calls[i].landed then
        With(d, i, d.calls[i].(stage := Granted))
          .(limiter := L.Commit(d.limiter, d.calls[i].stage.entry, d.calls[i].Amount()))
      else d
    case SendFailed(i) =>
      if IsSending(d, i) then Release(d, i).(limiter := L.Cancel(d.limiter, d.calls[i].stage.entry)) else d
    case Land(i) =>
      if i < |d.calls| && d.calls[i].sent && !d.calls[i].landed then
        var w, p := d.calls[i].wallet, PurseOf(d, d.calls[i].wallet);
        With(d, i, d.calls[i].(landed := true))
          .(purses := d.purses[w := p.(balance := p.balance + d.calls[i].Amount())])
      else d
    case Receive(w, lamports) =>
      d.(purses := d.purses[w := PurseOf(d, w).(balance := PurseOf(d, w).balance + lamports)])
    case Spend(w, lamports) =>
      var p := PurseOf(d, w);
      if lamports > p.balance then d else d.(purses := d.purses[w := Purse(p.balance - lamports, p.spent + lamports)])
  }

  function Run(c: L.Config, treasury: Address, es: seq<Event>): Dust {
    if es == [] then EMPTY else Step(Run(c, treasury, es[..|es| - 1]), c, treasury, es[|es| - 1])
  }

  // ---- one grant a wallet ----

  /** Call `i` holds its wallet's mark: it is under way, or ended in a grant. */
  predicate Holds(d: Dust, i: nat)
    requires i < |d.calls|
  {
    !d.calls[i].stage.NotGranted?
  }

  ghost predicate HeldBy(d: Dust, w: Address) {
    exists i :: 0 <= i < |d.calls| && Holds(d, i) && d.calls[i].wallet == w
  }

  /** A wallet is marked exactly while a call of it holds the mark, which only its last call can; the treasury
      has no calls. */
  ghost predicate Marked(d: Dust, treasury: Address) {
    && (forall i :: 0 <= i < |d.calls| ==> d.calls[i].wallet != treasury)
    && (forall i, j :: 0 <= i < j < |d.calls| && d.calls[i].wallet == d.calls[j].wallet ==> !Holds(d, i))
    && (forall w :: w in d.granted <==> HeldBy(d, w))
  }

  /** How a step changes call `i`, and with it the marks. */
  lemma MarkedWith(d: Dust, t: Dust, treasury: Address, i: nat)
    requires Marked(d, treasury) && i < |d.calls| && |t.calls| == |d.calls| && t.calls == d.calls[i := t.calls[i]]
    requires t.calls[i].wallet == d.calls[i].wallet && (Holds(t, i) ==> Holds(d, i))
    requires t.granted == if Holds(d, i) && !Holds(t, i) then d.granted - {d.calls[i].wallet} else d.granted
    ensures Marked(t, treasury)
  {
    forall w ensures w in t.granted <==> HeldBy(t, w) {
      if w in t.granted {
        var k :| 0 <= k < |d.calls| && Holds(d, k) && d.calls[k].wallet == w;
        assert Holds(t, k) && t.calls[k].wallet == w;
      }
      if k :| 0 <= k < |t.calls| && Holds(t, k) && t.calls[k].wallet == w {
        assert Holds(d, k) && d.calls[k].wallet == w;
        if Holds(d, i) && !Holds(t, i) {
          assert k != i && d.calls[k].wallet != d.calls[i].wallet;
        }
      }
    }
  }

  lemma MarkedAsked(d: Dust, c: L.Config, treasury: Address, w: Address)
    requires Marked(d, treasury)
    ensures Marked(Step(d, c, treasury, Ask(w)), treasury)
  {
    var t := Step(d, c, treasury, Ask(w));
    if t != d {
      forall v ensures v in t.granted <==> HeldBy(t, v) {
        if v in d.granted {
          var k :| 0 <= k < |d.calls| && Holds(d, k) && d.calls[k].wallet == v;
          assert Holds(t, k) && t.calls[k].wallet == v;
        }
        assert Holds(t, |d.calls|) && t.calls[|d.calls|].wallet == w;
        if k :| 0 <= k < |t.calls| && Holds(t, k) && t.calls[k].wallet == v {
          assert k < |d.calls| ==> Holds(d, k) && d.calls[k].wallet == v;
        }
      }
      forall i | 0 <= i < |d.calls| && d.calls[i].wallet == w ensures !Holds(t, i) {
        assert !HeldBy(d, w);
        assert !Holds(d, i);
      }
    }
  }

  /** Which call a step other than `Ask` changes, if any. */
  lemma StepChanges(d: Dust, c: L.Config, treasury: Address, e: Event)
    requires !e.Ask?
    ensures var t := Step(d, c, treasury, e);
      || (t.calls == d.calls && t.granted == d.granted)
      || (!e.Receive? && !e.Spend? && e.call < |d.calls| && |t.calls| == |d.calls|
           && t.calls == d.calls[e.call := t.calls[e.call]]
          && t.calls[e.call].wallet == d.calls[e.call].wallet && (Holds(t, e.call) ==> Holds(d, e.call))
          && t.granted == if Holds(d, e.call) && !Holds(t, e.call) then d.granted - {d.calls[e.call].wallet}
            else d.granted)
  {
    hide L.Refused, L.Reserve;
  }

  lemma {:induction false} RunMarked(c: L.Config, treasury: Address, es: seq<Event>)
    ensures Marked(Run(c, treasury, es), treasury)
  {
    if es != [] {
      RunMarked(c, treasury, es[..|es| - 1]);
      StepMarked(Run(c, treasury, es[..|es| - 1]), c, treasury, es[|es| - 1]);
    }
  }

  lemma StepMarked(d: Dust, c: L.Config, treasury: Address, e: Event)
    requires Marked(d, treasury)
    ensures Marked(Step(d, c, treasury, e), treasury)
  {
    hide Step, Marked;
    var t := Step(d, c, treasury, e);
    if e.Ask? {
      MarkedAsked(d, c, treasury, e.wallet);
    } else {
      StepChanges(d, c, treasury, e);
      if t.calls == d.calls && t.granted == d.granted {
        MarkedSame(d, t, treasury);
      } else {
        MarkedWith(d, t, treasury, e.call);
      }
    }
  }

  lemma MarkedSame(d: Dust, t: Dust, treasury: Address)
    requires Marked(d, treasury) && t.calls == d.calls && t.granted == d.granted
    ensures Marked(t, treasury)
  {
    assert forall w :: HeldBy(t, w) <==> HeldBy(d, w);
  }

  /** However calls interleave, of a wallet's calls only the last can be under way or granted: two calls never
      both end in a grant. The treasury has none. */
  lemma GrantedOnce(c: L.Config, treasury: Address, es: seq<Event>, i: nat, j: nat)
    requires var d := Run(c, treasury, es); i < j < |d.calls| && d.calls[i].wallet == d.calls[j].wallet
    ensures var d := Run(c, treasury, es); d.calls[i].wallet != treasury && d.calls[i].stage.NotGranted?
  {
    RunMarked(c, treasury, es);
    assert !Holds(Run(c, treasury, es), i);
  }

  // ---- a call from beginning to end ----

  /** A call of wallet `w`, the `n`th, with nothing in between. */
  function Undisturbed(n: nat, w: Address, amount: nat, now: Millis): seq<Event> {
    [Ask(w), Look(n, amount), Decide(n, now), Land(n), SendSucceeded(n)]
  }

  lemma RunLast(c: L.Config, treasury: Address, es: seq<Event>, e: Event)
    ensures Run(c, treasury, es + [e]) == Step(Run(c, treasury, es), c, treasury, e)
  {
    assert (es + [e])[..|es|] == es;
  }

  lemma RunUndisturbed(c: L.Config, treasury: Address, es: seq<Event>, n: nat, w: Address, amount: nat, now: Millis)
    ensures var d1 := Step(Run(c, treasury, es), c, treasury, Ask(w));
      var d2 := Step(d1, c, treasury, Look(n, amount));
      var d3 := Step(d2, c, treasury, Decide(n, now));
      Run(c, treasury, es + Undisturbed(n, w, amount, now))
        == Step(Step(d3, c, treasury, Land(n)), c, treasury, SendSucceeded(n))
  {
    hide Step;
    var e1 := es + [Ask(w)];
    var e2 := e1 + [Look(n, amount)];
    var e3 := e2 + [Decide(n, now)];
    var e4 := e3 + [Land(n)];
    RunLast(c, treasury, es, Ask(w));
    RunLast(c, treasury, e1, Look(n, amount));
    RunLast(c, treasury, e2, Decide(n, now));
    RunLast(c, treasury, e3, Land(n));
    RunLast(c, treasury, e4, SendSucceeded(n));
    assert es + Undisturbed(n, w, amount, now) == e4 + [SendSucceeded(n)];
  }

  /** A call is let in exactly when it is not the treasury's and no earlier call of its wallet holds the mark. */
  lemma AskedExactly(d: Dust, c: L.Config, treasury: Address, w: Address)
    requires Marked(d, treasury)
    ensures var t := Step(d, c, treasury, Ask(w));
      if w != treasury && forall i :: 0 <= i < |d.calls| && d.calls[i].wallet == w ==> d.calls[i].stage.NotGranted?
      then t == d.(granted := d.granted + {w}, calls := d.calls + [Call(w, Checking, None, false, false)])
      else t == d
  {
    assert HeldBy(d, w) <==> exists i :: 0 <= i < |d.calls| && d.calls[i].wallet == w && Holds(d, i);
  }

  /** From the state in which the call was let in: it ends in a grant exactly when the balance is below the
      amount and the limiter has room. */
  lemma LetInThen(d: Dust, c: L.Config, treasury: Address, n: nat, amount: nat, now: Millis)
    requires n < |d.calls| && d.calls[n] == Call(d.calls[n].wallet, Checking, None, false, false)
    ensures var w := d.calls[n].wallet;
      var d3 := Step(Step(d, c, treasury, Look(n, amount)), c, treasury, Decide(n, now));
      var t := Step(Step(d3, c, treasury, Land(n)), c, treasury, SendSucceeded(n));
      && |t.calls| == |d.calls| && t.calls == d.calls[n := t.calls[n]]
      && (t.calls[n].stage.Granted? <==>
           PurseOf(d, w).balance < amount && L.Refused(d.limiter, c, w, amount, now) == None)
      && (t.calls[n].stage.Granted? ==>
            && t.calls[n].landed && PurseOf(t, w).balance == PurseOf(d, w).balance + amount
            && t.limiter == d.limiter + [L.Entry(w, now, amount, false, false)])
  {
    hide L.Refused;
  }

  /** In every reachable state a call that nothing interrupts is granted exactly when it is not the treasury's, no
      earlier call of its wallet is under way or was granted, the wallet holds less than the amount, and the
      limiter has room. For a wallet that was paid before this says exactly when it is paid again: when the
      payment was reported as failed, and has been spent below the amount. */
  lemma GrantedExactly(c: L.Config, treasury: Address, es: seq<Event>, w: Address, amount: nat, now: Millis)
    ensures var d := Run(c, treasury, es);
      var n := |d.calls|;
      var t := Run(c, treasury, es + Undisturbed(n, w, amount, now));
      && (n < |t.calls| && t.calls[n].stage.Granted? <==>
            && w != treasury && (forall i :: 0 <= i < n && d.calls[i].wallet == w ==> d.calls[i].stage.NotGranted?)
            && PurseOf(d, w).balance < amount && L.Refused(d.limiter, c, w, amount, now) == None)
      && (n < |t.calls| && t.calls[n].stage.Granted? ==>
            && |t.calls| == n + 1 && t.calls[..n] == d.calls && t.calls[n].wallet == w && t.calls[n].landed
            && t.limiter == d.limiter + [L.Entry(w, now, amount, false, false)])
  {
    hide Run;
    var d := Run(c, treasury, es);
    var n := |d.calls|;
    RunMarked(c, treasury, es);
    RunUndisturbed(c, treasury, es, n, w, amount, now);
    AskedExactly(d, c, treasury, w);
    var d1 := Step(d, c, treasury, Ask(w));
    if n < |d1.calls| {
      LetInThen(d1, c, treasury, n, amount, now);
      hide Step, L.Refused;
      assert PurseOf(d1, w) == PurseOf(d, w);
    } else {
      hide L.Refused;
    }
  }
}
