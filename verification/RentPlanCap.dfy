/** The cap on live plans. `admit` refuses to start one past the cap, but an undo that puts a finished
    plan back does not look at it: the documented bound of 2000 live plans is exceeded exactly then. */
module RentPlanCap {
  import opened Basics
  import opened RentPlan
  import opened RentPlanUndo
  import opened RentPlanRuns

  /** In every reachable registry the plans that are live because `admit` started them, and not because an
      undo put them back, are within the cap. */
  lemma LivePlansBounded(es: seq<Event>)
    ensures var r := Run(EMPTY, es);
      |set w | w in r.live && !PutBack(r.handles, r.live[w])| <= MAX_LIVE_PLANS
  {
    RunInv(es);
    assert NotPutBack(Run(EMPTY, es)) == set w | w in Run(EMPTY, es).live
      && !PutBack(Run(EMPTY, es).handles, Run(EMPTY, es).live[w]);
  }

  /** From a registry within the cap, a call goes past it exactly when it is the undo of a wallet's
      finished plan, run while that wallet has no plan and the registry is full, with something to
      put back. */
  lemma CapExceededExactly(r: Registry, e: Event)
    requires Inv(r) && |r.live| <= MAX_LIVE_PLANS
    ensures |Step(r, e).live| > MAX_LIVE_PLANS <==>
            && e.UndoCall? && e.handle < |r.handles| && CanPutBack(r.handles[e.handle])
            && r.handles[e.handle].wallet !in r.live && |r.live| == MAX_LIVE_PLANS
            && (Restored(r, e.handle).contexts != {} || Restored(r, e.handle).preparations > 0)
  {
    match e
    case AdmitCall(w, use, signs, now) => AdmitWithinCap(r, w, use, signs, now);
    case UndoCall(i) =>
      if i < |r.handles| {
        UndoSize(r, i);
      }
  }

  lemma AcceptedWithinCap(r: Registry, s: Registry, h: Handle, base: Plan)
    requires Accepted(r, s, h, base) && Checked(r, h, base) && |r.live| <= MAX_LIVE_PLANS
    ensures |s.live| <= MAX_LIVE_PLANS
  {
    if h.wallet !in r.live && h.preparing {
      CardinalityMonotone(s.live.Keys, r.live.Keys + {h.wallet});
    } else {
      CardinalityMonotone(s.live.Keys, r.live.Keys);
    }
  }

  lemma AdmitWithinCap(r: Registry, w: Address, use: ContextUse, walletSigns: bool, now: Millis)
    requires Inv(r) && |r.live| <= MAX_LIVE_PLANS
    ensures |Admit(r, w, use, walletSigns, now).after.live| <= MAX_LIVE_PLANS
  {
    var t := Sweep(r, now);
    SweepInv(r, now);
    CardinalityMonotone(t.live.Keys, r.live.Keys);
    if Refused(t, w, use, walletSigns) == None {
      AcceptIsAccepted(t, w, use, walletSigns, now);
      AcceptIsChecked(t, w, use, walletSigns, now);
      hide *;
      AcceptedWithinCap(t, Accept(t, w, use, walletSigns, now), MakeHandle(t, w, use, walletSigns, now),
        BasePlan(t, w, now));
    }
  }

  lemma UndoSize(r: Registry, i: nat)
    requires Inv(r) && i < |r.handles|
    ensures var h := r.handles[i];
            if CanPutBack(h) && h.wallet !in r.live
              && (Restored(r, i).contexts != {} || Restored(r, i).preparations > 0)
            then |Undo(r, i).live| == |r.live| + 1
            else |Undo(r, i).live| <= |r.live|
  {
    var s := Undo(r, i);
    if Effective(r, i) {
      UndoIsReversed(r, i);
      hide Undo, Restored;
      ReversedSize(r, s, i, Restored(r, i));
    }
  }

  lemma ReversedSize(r: Registry, s: Registry, i: nat, p: Plan)
    requires Reversed(r, s, i, p)
    ensures var h := r.handles[i];
            if h.wallet !in r.live && (p.contexts != {} || p.preparations > 0) then |s.live| == |r.live| + 1
            else |s.live| <= |r.live|
  {
    var w := r.handles[i].wallet;
    if w !in r.live && (p.contexts != {} || p.preparations > 0) {
      assert s.live.Keys == r.live.Keys + {w};
    } else {
      assert s.live.Keys <= r.live.Keys;
      CardinalityMonotone(s.live.Keys, r.live.Keys);
    }
  }

  // ---- a run that ends with 2001 live plans ----

  function CreateOne(w: Address): Event {
    AdmitCall(w, ContextUse([w], [w], []), false, 0)
  }

  /** Wallet 0 prepares and finishes a plan; then wallets 1 to `n` start one each. */
  function Fill(n: nat): seq<Event> {
    if n == 0 then [CreateOne(0), AdmitCall(0, ContextUse([], [0], [0]), true, 0)]
    else Fill(n - 1) + [CreateOne(n)]
  }

  /** The state `Fill(n)` reaches: wallets 1 to `n` have one context each, from time 0. */
  ghost predicate FilledLive(r: Registry, n: nat) {
    && Wired(r) && |r.live| == n
    && (forall w :: w in r.live <==> 1 <= w <= n)
    && (forall w :: w in r.live ==>
         r.live[w] != 0 && r.plans[r.live[w]].contexts == {w} && r.plans[r.live[w]].startedAt == 0)
  }

  /** ... and the second handle can put wallet 0's finished plan back. */
  ghost predicate FinishedFirst(r: Registry) {
    && Wired(r) && |r.handles| > 1
    && r.handles[1].wallet == 0 && CanPutBack(r.handles[1]) && !r.handles[1].preparing
    && r.handles[1].plan == 0 && r.plans[0].preparations == 1
  }

  lemma CreateOneAccepted(r: Registry, w: Address)
    requires Wired(r) && w !in r.live && |r.live| < MAX_LIVE_PLANS
    requires forall v :: v in r.live ==> w !in r.plans[r.live[v]].contexts
    ensures Refused(r, w, CreateOne(w).use, false) == None
  {
    assert !Owned(r, w);
  }

  lemma CreateOneHandle(r: Registry, w: Address)
    requires Wired(r) && w !in r.live
    ensures MakeHandle(r, w, CreateOne(w).use, false, 0)
      == Handle(w, |r.plans|, true, {w}, {w}, {}, false, false, false)
  {
    assert Elems(CreateOne(w).use.created) == {w} && Elems(CreateOne(w).use.closed) == {};
  }

  lemma NothingStale(r: Registry)
    requires Wired(r) && forall v :: v in r.live ==> r.plans[r.live[v]].startedAt == 0
    ensures Sweep(r, 0) == r
  {
    assert Sweep(r, 0).live == r.live;
  }

  lemma CreateOneStep(r: Registry, w: Address)
    requires Wired(r) && w !in r.live && |r.live| < MAX_LIVE_PLANS
    requires forall v :: v in r.live ==> r.plans[r.live[v]].startedAt == 0 && w !in r.plans[r.live[v]].contexts
    ensures var s := Step(r, CreateOne(w));
      && s.live == r.live[w := |r.plans|]
      && s.plans == r.plans + [Plan(w, 0, 1, {w})]
      && s.handles == r.handles + [Handle(w, |r.plans|, true, {w}, {w}, {}, false, false, false)]
  {
    hide Sweep, Refused, MakeHandle, Owned, Owns;
    NothingStale(r);
    CreateOneAccepted(r, w);
    CreateOneHandle(r, w);
  }

  lemma FinishHandle(r: Registry)
    requires r == Registry(map[0 := 0], [Plan(0, 0, 1, {0})], [Handle(0, 0, true, {0}, {0}, {}, false, false, false)])
    ensures Refused(r, 0, ContextUse([], [0], [0]), true) == None
    ensures MakeHandle(r, 0, ContextUse([], [0], [0]), true, 0) == Handle(0, 0, false, {}, {}, {0}, true, false, false)
  {
    var use := ContextUse([], [0], [0]);
    assert Owns(r, 0, 0);
    assert Elems(use.created) == {} && Elems(use.closed) == {0};
  }

  lemma FinishStep(r: Registry)
    requires r == Registry(map[0 := 0], [Plan(0, 0, 1, {0})], [Handle(0, 0, true, {0}, {0}, {}, false, false, false)])
    ensures var s := Step(r, AdmitCall(0, ContextUse([], [0], [0]), true, 0));
      && s.live == map[]
      && s.plans == [Plan(0, 0, 1, {})]
      && s.handles == r.handles + [Handle(0, 0, false, {}, {}, {0}, true, false, false)]
  {
    hide Sweep, Refused, MakeHandle, Owned, Owns;
    NothingStale(r);
    FinishHandle(r);
  }

  lemma RunLast(r: Registry, es: seq<Event>, e: Event)
    requires Wired(r)
    ensures Run(r, es + [e]) == Step(Run(r, es), e)
  {
    assert (es + [e])[..|es|] == es;
  }

  lemma FilledStart()
    ensures FilledLive(Run(EMPTY, Fill(0)), 0) && FinishedFirst(Run(EMPTY, Fill(0)))
  {
    hide Step, Run;
    var r := Step(EMPTY, CreateOne(0));
    CreateOneStep(EMPTY, 0);
    FinishStep(r);
    FillZero();
  }

  lemma FillZero()
    ensures Run(EMPTY, Fill(0)) == Step(Step(EMPTY, CreateOne(0)), AdmitCall(0, ContextUse([], [0], [0]), true, 0))
  {
    hide Step;
    RunLast(EMPTY, [], CreateOne(0));
    assert [] + [CreateOne(0)] == [CreateOne(0)];
    RunLast(EMPTY, [CreateOne(0)], Fill(0)[1]);
    assert [CreateOne(0)] + [Fill(0)[1]] == Fill(0);
  }

  lemma FilledAfter(r: Registry, n: nat, s: Registry, h: Handle)
    requires FilledLive(r, n) && FinishedFirst(r)
    requires s == Registry(r.live[n + 1 := |r.plans|], r.plans + [Plan(n + 1, 0, 1, {n + 1})], r.handles + [h])
      && h.plan == |r.plans|
    ensures FilledLive(s, n + 1) && FinishedFirst(s)
  {
    assert n + 1 !in r.live;
  }

  lemma FilledNext(r: Registry, n: nat)
    requires FilledLive(r, n) && FinishedFirst(r) && n < MAX_LIVE_PLANS
    ensures FilledLive(Step(r, CreateOne(n + 1)), n + 1) && FinishedFirst(Step(r, CreateOne(n + 1)))
  {
    hide Step;
    var s := Step(r, CreateOne(n + 1));
    CreateOneStep(r, n + 1);
    FilledAfter(r, n, s, Handle(n + 1, |r.plans|, true, {n + 1}, {n + 1}, {}, false, false, false));
  }

  lemma {:induction false} FilledAll(n: nat)
    requires n <= MAX_LIVE_PLANS
    ensures FilledLive(Run(EMPTY, Fill(n)), n) && FinishedFirst(Run(EMPTY, Fill(n)))
  {
    hide Step, FilledLive, FinishedFirst;
    if n == 0 {
      FilledStart();
    } else {
      FilledAll(n - 1);
      FilledNext(Run(EMPTY, Fill(n - 1)), n - 1);
      RunLast(EMPTY, Fill(n - 1), CreateOne(n));
    }
  }

  /** A run of admissions and one undo that leaves 2001 plans live. */
  lemma CapCanBeExceeded()
    ensures |Run(EMPTY, Fill(MAX_LIVE_PLANS) + [UndoCall(1)]).live| == MAX_LIVE_PLANS + 1
  {
    var es := Fill(MAX_LIVE_PLANS);
    FilledAll(MAX_LIVE_PLANS);
    RunInv(es);
    RunLast(EMPTY, es, UndoCall(1));
    UndoSize(Run(EMPTY, es), 1);
  }
}
