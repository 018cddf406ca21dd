/** When a wallet is paid its rent dust twice: a transfer that was reported as failed lands all the same, and the
    balance read at the next call is too low again. */
module RentDustTwice {
  import opened Basics
  import opened RentDust
  import L = Limits

  /** What landed for a wallet. */
  function PaidTo(calls: seq<Call>, w: Address): nat {
    if calls == [] then 0
    else PaidTo(calls[..|calls| - 1], w) + Share(calls[|calls| - 1], w)
  }

  function Share(k: Call, w: Address): nat {
    if k.landed && k.wallet == w then k.Amount() else 0
  }

  lemma {:induction false} PaidToUpdate(calls: seq<Call>, i: nat, k: Call, w: Address)
    requires i < |calls|
    ensures PaidTo(calls[i := k], w) + Share(calls[i], w) == PaidTo(calls, w) + Share(k, w)
  {
    var n := |calls| - 1;
    if i == n {
      assert calls[i := k][..n] == calls[..n];
    } else {
      assert calls[i := k][..n] == calls[..n][i := k];
      PaidToUpdate(calls[..n], i, k, w);
    }
  }

  lemma {:induction false} OneOfPaid(calls: seq<Call>, i: nat, w: Address)
    requires i < |calls|
    ensures Share(calls[i], w) <= PaidTo(calls, w)
  {
    if i < |calls| - 1 {
      OneOfPaid(calls[..|calls| - 1], i, w);
    }
  }

  /** What a wallet holds and what it has spent make up all that landed for it, and more if others paid in. */
  ghost predicate Conserved(d: Dust) {
    forall w :: PaidTo(d.calls, w) <= PurseOf(d, w).balance + PurseOf(d, w).spent
  }

  /** A call that sent anything had read a balance below the amount; what had landed by then for its wallet was
      in that balance or spent. */
  ghost predicate Informed(d: Dust, j: nat)
    requires j < |d.calls|
  {
    var k := d.calls[j];
    && (k.landed ==> k.sent)
    && (k.sent ==> k.reading.Some? && k.reading.value.balance < k.Amount())
    && (k.stage.Checking? || k.stage.Deciding? ==> !k.sent)
    && (k.reading.Some? ==> forall i :: i in k.reading.value.landed ==>
          && i < |d.calls| && d.calls[i].landed
          && (d.calls[i].wallet == k.wallet ==> d.calls[i].Amount() <= k.reading.value.balance + k.reading.value.spent))
  }

  ghost predicate Sound(d: Dust) {
    Conserved(d) && forall j :: 0 <= j < |d.calls| ==> Informed(d, j)
  }

  lemma ConservedWith(d: Dust, t: Dust, i: nat)
    requires Conserved(d) && i < |d.calls| && |t.calls| == |d.calls| && t.calls == d.calls[i := t.calls[i]]
    requires t.purses == d.purses && forall w :: Share(t.calls[i], w) == Share(d.calls[i], w)
    ensures Conserved(t)
  {
    forall w ensures PaidTo(t.calls, w) == PaidTo(d.calls, w) && PurseOf(t, w) == PurseOf(d, w) {
      PaidToUpdate(d.calls, i, t.calls[i], w);
    }
  }

  /** A call moves on: its stage changes, and it may send if it has read a balance below the amount. */
  lemma SoundMoved(d: Dust, t: Dust, i: nat)
    requires Sound(d) && i < |d.calls| && |t.calls| == |d.calls| && t.purses == d.purses
    requires t.calls == d.calls[i := d.calls[i].(stage := t.calls[i].stage, sent := t.calls[i].sent)]
    requires t.calls[i].sent <==> d.calls[i].sent || t.calls[i].stage.Sending?
    requires !t.calls[i].stage.Checking? && !t.calls[i].stage.Deciding?
    requires t.calls[i].sent ==> d.calls[i].reading.Some? && d.calls[i].reading.value.balance < d.calls[i].Amount()
    ensures Sound(t)
  {
    ConservedWith(d, t, i);
    forall j | 0 <= j < |t.calls| ensures Informed(t, j) {
      assert Informed(d, j);
    }
  }

  lemma SoundLooked(d: Dust, c: L.Config, treasury: Address, i: nat, amount: nat)
    requires Sound(d) && i < |d.calls| && d.calls[i].stage.Checking?
    ensures Sound(Step(d, c, treasury, Look(i, amount)))
  {
    var t, p := Step(d, c, treasury, Look(i, amount)), PurseOf(d, d.calls[i].wallet);
    assert Informed(d, i);
    ConservedWith(d, t, i);
    forall k | k in Landed(d) && d.calls[k].wallet == d.calls[i].wallet
      ensures d.calls[k].Amount() <= p.balance + p.spent {
      OneOfPaid(d.calls, k, d.calls[i].wallet);
    }
    forall j | 0 <= j < |t.calls| ensures Informed(t, j) {
      assert Informed(d, j);
    }
  }

  lemma SoundLanded(d: Dust, c: L.Config, treasury: Address, i: nat)
    requires Sound(d) && i < |d.calls| && d.calls[i].sent && !d.calls[i].landed
    ensures Sound(Step(d, c, treasury, Land(i)))
  {
    var t := Step(d, c, treasury, Land(i));
    forall w ensures PaidTo(t.calls, w) <= PurseOf(t, w).balance + PurseOf(t, w).spent {
      PaidToUpdate(d.calls, i, t.calls[i], w);
      assert PaidTo(d.calls, w) <= PurseOf(d, w).balance + PurseOf(d, w).spent;
    }
    forall j | 0 <= j < |t.calls| ensures Informed(t, j) {
      assert Informed(d, j);
    }
  }

  lemma SoundAsked(d: Dust, t: Dust, k: Call)
    requires Sound(d) && t.calls == d.calls + [k] && t.purses == d.purses && k.stage.Checking? && k.reading.None?
      && !k.sent && !k.landed
    ensures Sound(t)
  {
    assert t.calls[..|d.calls|] == d.calls;
    forall w ensures PaidTo(t.calls, w) == PaidTo(d.calls, w) && PurseOf(t, w) == PurseOf(d, w) {
    }
    forall j | 0 <= j < |t.calls| ensures Informed(t, j) {
      assert j < |d.calls| ==> Informed(d, j);
    }
  }

  lemma SoundPurses(d: Dust, t: Dust)
    requires Sound(d) && t.calls == d.calls
    requires forall w :: PurseOf(d, w).balance + PurseOf(d, w).spent <= PurseOf(t, w).balance + PurseOf(t, w).spent
    ensures Sound(t)
  {
    forall j | 0 <= j < |t.calls| ensures Informed(t, j) {
      assert Informed(d, j);
    }
  }

  lemma StepSound(d: Dust, c: L.Config, treasury: Address, e: Event)
    requires Sound(d)
    ensures Sound(Step(d, c, treasury, e))
  {
    var t := Step(d, c, treasury, e);
    hide Sound, Informed, L.Refused, L.Reserve;
    match e
    case Ask(_) => if t != d { SoundAsked(d, t, t.calls[|d.calls|]); }
    case Look(i, amount) => if t != d { SoundLooked(d, c, treasury, i, amount); }
    case Land(i) => if t != d { SoundLanded(d, c, treasury, i); }
    case Receive(_, _) => SoundPurses(d, t);
    case Spend(_, _) => SoundPurses(d, t);
    case _ =>
      if t != d {
        CallKnows(d, e.call);
        SoundMoved(d, t, e.call);
      }
  }

  lemma CallKnows(d: Dust, i: nat)
    requires Sound(d) && i < |d.calls|
    ensures d.calls[i].sent ==> d.calls[i].reading.Some? && d.calls[i].reading.value.balance < d.calls[i].Amount()
    ensures d.calls[i].stage.Checking? || d.calls[i].stage.Deciding? ==> !d.calls[i].sent
  {
    assert Informed(d, i);
  }

  lemma {:induction false} RunSound(c: L.Config, treasury: Address, es: seq<Event>)
    ensures Sound(Run(c, treasury, es))
  {
    if es != [] {
      RunSound(c, treasury, es[..|es| - 1]);
      StepSound(Run(c, treasury, es[..|es| - 1]), c, treasury, es[|es| - 1]);
    } else {
      assert forall w :: PurseOf(EMPTY, w) == Purse(0, 0);
    }
  }

  /** If the transfers of two calls of a wallet both land, the first was reported as failed; and when the second
      call looked, it read less than its amount, so the first had not landed yet or the wallet had spent what it
      is short of. */
  lemma PaidTwiceMeans(c: L.Config, treasury: Address, es: seq<Event>, i: nat, j: nat)
    requires var d := Run(c, treasury, es);
      i < j < |d.calls| && d.calls[i].wallet == d.calls[j].wallet && d.calls[i].landed && d.calls[j].landed
    ensures var d := Run(c, treasury, es);
      && d.calls[i].stage.NotGranted?
      && d.calls[j].reading.Some? && d.calls[j].reading.value.balance < d.calls[j].Amount()
      && (i in d.calls[j].reading.value.landed ==>
           d.calls[i].Amount() < d.calls[j].reading.value.spent + d.calls[j].Amount())
  {
    GrantedOnce(c, treasury, es, i, j);
    RunSound(c, treasury, es);
    assert Informed(Run(c, treasury, es), j);
  }

  // ---- and it does happen ----

  /** A payment is reported as failed and lands all the same, and the wallet spends it. */
  function FailedAndSpent(w: Address, amount: nat): seq<Event> {
    [Ask(w), Look(0, amount), Decide(0, 0), SendFailed(0), Land(0), Spend(w, amount)]
  }

  lemma NothingCounts(h: L.History, who: L.Who, from: int, to: int)
    requires |h| <= 1 && (h != [] ==> h[0].cancelled)
    ensures L.Count(h, who, from, to) == 0 && L.Booked(h, who, from, to) == 0
  {
    assert h != [] ==> h[..0] == [];
  }

  lemma NothingRefused(c: L.Config, w: Address, amount: nat, now: Millis, h: L.History)
    requires c.maxPerWalletPerHour > 0 && c.maxGlobalPerHour > 0
    requires amount <= c.maxLamportsPerWalletPerDay && amount <= c.maxLamportsGlobalPerDay
    requires |h| <= 1 && (h != [] ==> h[0].cancelled)
    ensures L.Refused(h, c, w, amount, now) == None
  {
    NothingCounts(h, L.One(w), now - L.HOUR_MS, now);
    NothingCounts(h, L.One(w), now - L.DAY_MS, now);
    NothingCounts(h, L.Everyone, now - L.HOUR_MS, now);
    NothingCounts(h, L.Everyone, now - L.DAY_MS, now);
    hide L.Count, L.Booked;
  }

  lemma AfterSending(c: L.Config, treasury: Address, w: Address, amount: nat)
    requires w != treasury && amount > 0 && L.Refused([], c, w, amount, 0) == None
    ensures Run(c, treasury, [Ask(w), Look(0, amount), Decide(0, 0)]) ==
      Dust({w}, [L.Entry(w, 0, amount, true, false)],
        [Call(w, Sending(0), Some(Reading(amount, 0, 0, {})), true, false)], map[])
  {
    var e0: seq<Event> := [];
    var e1 := e0 + [Ask(w)];
    var e2 := e1 + [Look(0, amount)];
    assert e2 + [Decide(0, 0)] == [Ask(w), Look(0, amount), Decide(0, 0)];
    RunLast(c, treasury, e0, Ask(w));
    RunLast(c, treasury, e1, Look(0, amount));
    RunLast(c, treasury, e2, Decide(0, 0));
    hide Run, L.Refused;
    var asked := Dust({w}, [], [Call(w, Checking, None, false, false)], map[]);
    OpeningRun(c, treasury);
    assert Step(EMPTY, c, treasury, Ask(w)) == asked;
    assert Landed(asked) == {};
  }

  lemma OpeningRun(c: L.Config, treasury: Address)
    ensures Run(c, treasury, []) == EMPTY
  {
  }

  lemma AfterFailedAndSpent(c: L.Config, treasury: Address, w: Address, amount: nat)
    requires w != treasury && amount > 0 && L.Refused([], c, w, amount, 0) == None
    ensures Run(c, treasury, FailedAndSpent(w, amount)) ==
      Dust({}, [L.Entry(w, 0, amount, false, true)], [Call(w, NotGranted, Some(Reading(amount, 0, 0, {})), true, true)],
        map[w := Purse(0, amount)])
  {
    var e3 := [Ask(w), Look(0, amount), Decide(0, 0)];
    var e4 := e3 + [SendFailed(0)];
    var e5 := e4 + [Land(0)];
    assert e5 + [Spend(w, amount)] == FailedAndSpent(w, amount);
    AfterSending(c, treasury, w, amount);
    RunLast(c, treasury, e3, SendFailed(0));
    RunLast(c, treasury, e4, Land(0));
    RunLast(c, treasury, e5, Spend(w, amount));
    hide Run, L.Refused;
  }

  /** After that the wallet's next call pays it again, with one payment booked against the daily cap. */
  lemma PaidTwice(c: L.Config, treasury: Address, w: Address, amount: nat, now: Millis)
    requires w != treasury && amount > 0 && c.maxPerWalletPerHour > 0 && c.maxGlobalPerHour > 0
    requires amount <= c.maxLamportsPerWalletPerDay && amount <= c.maxLamportsGlobalPerDay
    ensures var d := Run(c, treasury, FailedAndSpent(w, amount) + Undisturbed(1, w, amount, now));
      && |d.calls| == 2 && d.calls[0].wallet == d.calls[1].wallet == w && d.calls[0].landed && d.calls[1].landed
      && d.calls[1].stage.Granted? && forall from: int, to: int :: L.Booked(d.limiter, L.Everyone, from, to) <= amount
  {
    var es := FailedAndSpent(w, amount);
    NothingRefused(c, w, amount, 0, []);
    AfterFailedAndSpent(c, treasury, w, amount);
    GrantedExactly(c, treasury, es, w, amount, now);
    var d := Run(c, treasury, es);
    NothingRefused(c, w, amount, now, d.limiter);
    var t := Run(c, treasury, es + Undisturbed(1, w, amount, now));
    hide Run, L.Refused;
    assert t.calls[0] == t.calls[..1][0];
    forall from: int, to: int ensures L.Booked(t.limiter, L.Everyone, from, to) <= amount {
      NothingCounts(d.limiter, L.Everyone, from, to);
      L.WindowAppend(d.limiter, L.Entry(w, now, amount, false, false), L.Everyone, from, to);
    }
  }
}
