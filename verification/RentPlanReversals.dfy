/** What an undo closure does whenever it runs, however many other calls and undos came between: said of the call that
    it was made for. */
module RentPlanReversals {
  import opened Basics
  import opened RentPlan
  import opened RentPlanRuns
  import RPA = RentPlanAnswers
  import RPU = RentPlanUndo

  // ---- a closure remembers its call ----

  /** A handle changes only in whether it was run. */
  predicate SameCall(h: Handle, k: Handle) {
    k == h.(undone := k.undone, reversed := k.reversed)
  }

  lemma StepHandles(r: Registry, e: Event, i: nat)
    requires Wired(r) && i < |r.handles|
    ensures var s := Step(r, e);
      |r.handles| <= |s.handles| && SameCall(r.handles[i], s.handles[i])
  {
    hide Refused, MakeHandle, BasePlan, Restored, Effective;
  }

  lemma {:induction false} RunHandles(r: Registry, es: seq<Event>, i: nat)
    requires Wired(r) && i < |r.handles|
    ensures var s := Run(r, es);
      |r.handles| <= |s.handles| && SameCall(r.handles[i], s.handles[i])
  {
    if es != [] {
      RunHandles(r, es[..|es| - 1], i);
      StepHandles(Run(r, es[..|es| - 1]), es[|es| - 1], i);
    }
  }

  /** The number of the plan a call of wallet `w` works on: the one it has, or the next. */
  ghost function PlanFor(r: Registry, w: Address, now: Millis): nat
    requires Wired(r)
  {
    if RPA.HasPlan(r, w, now) then r.live[w] else |r.plans|
  }

  /** Admitting a transaction in `r` took its wallet's plan out of the registry, which became `s`. */
  ghost predicate TookOut(r: Registry, s: Registry, w: Address, use: ContextUse, now: Millis)
    requires Wired(r)
  {
    w !in s.live && (RPA.HasPlan(r, w, now) || use.created != [])
  }

  /** What the closure of an admitted call has captured. */
  ghost predicate Captured(h: Handle, r: Registry, s: Registry, w: Address, use: ContextUse, walletSigns: bool,
                           now: Millis)
    requires Wired(r)
  {
    && h.wallet == w && h.plan == PlanFor(r, w, now) && h.preparing == (!walletSigns || use.created != [])
    && (forall c :: c in h.added <==> c in use.created && c !in use.closed)
    && (forall c :: c in h.spent <==> c in use.closed && c !in use.created && c in RPA.ContextsOf(r, w, now))
    && h.removedPlan == TookOut(r, s, w, use, now)
  }

  lemma HandleCaptures(t: Registry, w: Address, use: ContextUse, walletSigns: bool, now: Millis)
    requires Wired(t) && Refused(t, w, use, walletSigns) == None
    ensures var h, s := MakeHandle(t, w, use, walletSigns, now), Accept(t, w, use, walletSigns, now);
      && h.wallet == w && h.plan == (if w in t.live then t.live[w] else |t.plans|)
      && h.preparing == (!walletSigns || use.created != []) && !h.undone && !h.reversed
      && (forall c :: c in h.added <==> c in use.created && c !in use.closed)
      && (forall c :: c in h.spent <==> c in use.closed && c !in use.created && Owns(t, w, c))
      && h.removedPlan == (w !in s.live && (w in t.live || use.created != []))
      && s.handles == t.handles + [h]
  {
    RPA.AcceptFacts(t, w, use, walletSigns);
  }

  lemma AdmittedHandle(r: Registry, w: Address, use: ContextUse, walletSigns: bool, now: Millis)
    requires Wired(r) && Admit(r, w, use, walletSigns, now).outcome.Success?
    ensures var a := Admit(r, w, use, walletSigns, now);
      && a.outcome.value < |a.after.handles| && !a.after.handles[a.outcome.value].undone
      && Captured(a.after.handles[a.outcome.value], r, a.after, w, use, walletSigns, now)
  {
    var t := Sweep(r, now);
    RPA.SweptPlans(r, w, now);
    assert Refused(t, w, use, walletSigns) == None;
    HandleCaptures(t, w, use, walletSigns, now);
    hide Sweep, Accept, MakeHandle, Refused, Owns, RPA.ContextsOf, RPA.HasPlan;
  }

  // ---- the undo ----

  /** What an undo does to its own wallet's plan `p`, when it finds it. */
  ghost predicate TakenBack(r: Registry, s: Registry, h: Handle)
    requires Wired(r) && Wired(s) && h.plan < |r.plans|
  {
    && (forall c :: Owns(s, h.wallet, c) <==>
          (c in r.plans[h.plan].contexts && c !in h.added) || (c in h.spent && !OwnedByOther(r, h.wallet, c)))
    && (h.wallet in s.live <==> (exists c :: Owns(s, h.wallet, c)) || Outstanding(s.handles, h.plan) > 0)
    && (h.wallet in s.live ==>
          s.live[h.wallet] == h.plan && s.plans[h.plan].startedAt == r.plans[h.plan].startedAt)
    && Outstanding(s.handles, h.plan) + (if h.preparing then 1 else 0) == Outstanding(r.handles, h.plan)
  }

  lemma UndoPlan(r: Registry, i: nat)
    requires Wired(r) && i < |r.handles| && Effective(r, i)
    ensures var h, s := r.handles[i], Undo(r, i);
      && s.plans == r.plans[h.plan := Restored(r, i)]
      && s.handles == r.handles[i := h.(undone := true, reversed := true)]
      && (h.wallet in s.live <==> Restored(r, i).contexts != {} || Restored(r, i).preparations > 0)
      && (h.wallet in s.live ==> s.live[h.wallet] == h.plan)
  {
    hide Restored;
  }

  lemma RestoredContexts(r: Registry, i: nat)
    requires Wired(r) && i < |r.handles|
    ensures var h, p := r.handles[i], Restored(r, i);
      && p.startedAt == r.plans[h.plan].startedAt
      && forall c :: c in p.contexts <==>
           (c in r.plans[h.plan].contexts && c !in h.added) || (c in h.spent && !OwnedByOther(r, h.wallet, c))
  {
    hide OwnedByOther;
  }

  lemma OwnsPlan(s: Registry, w: Address, p: Plan, n: nat)
    requires Wired(s) && n < |s.plans| && s.plans[n] == p && (w in s.live ==> s.live[w] == n)
    requires w in s.live <==> p.contexts != {} || p.preparations > 0
    ensures forall c :: Owns(s, w, c) <==> c in p.contexts
    ensures w in s.live <==> (exists c :: Owns(s, w, c)) || p.preparations > 0
  {
    if p.contexts != {} {
      var c :| c in p.contexts;
      assert Owns(s, w, c);
    }
  }

  lemma NotReversedYet(r: Registry, i: nat)
    requires Inv(r) && i < |r.handles| && !r.handles[i].undone
    ensures !r.handles[i].reversed
  {
  }

  lemma OneLessPrepared(hs: seq<Handle>, i: nat)
    requires i < |hs| && !hs[i].reversed
    ensures Outstanding(hs[i := hs[i].(undone := true, reversed := true)], hs[i].plan)
      + (if hs[i].preparing then 1 else 0) == Outstanding(hs, hs[i].plan)
  {
    OutstandingUpdate(hs, i, hs[i].(undone := true, reversed := true), hs[i].plan);
    hide Outstanding;
  }

  lemma PlanCounts(r: Registry, p: nat)
    requires Inv(r) && p < |r.plans|
    ensures r.plans[p].preparations == Outstanding(r.handles, p)
  {
    hide Outstanding;
  }

  /** The plan left by an undo, `p`, is the wallet's while there is something in it. */
  lemma TakenBackBy(r: Registry, s: Registry, h: Handle, p: Plan)
    requires Wired(r) && Wired(s) && h.plan < |r.plans| && |s.plans| == |r.plans| && s.plans[h.plan] == p
    requires p.startedAt == r.plans[h.plan].startedAt && p.preparations == Outstanding(s.handles, h.plan)
    requires forall c :: c in p.contexts <==>
      (c in r.plans[h.plan].contexts && c !in h.added) || (c in h.spent && !OwnedByOther(r, h.wallet, c))
    requires h.wallet in s.live <==> p.contexts != {} || p.preparations > 0
    requires h.wallet in s.live ==> s.live[h.wallet] == h.plan
    requires Outstanding(s.handles, h.plan) + (if h.preparing then 1 else 0) == Outstanding(r.handles, h.plan)
    ensures TakenBack(r, s, h)
  {
    hide Outstanding, OwnedByOther;
    OwnsPlan(s, h.wallet, p, h.plan);
    hide Owns;
  }

  lemma UndoTakesBack(r: Registry, i: nat)
    requires Inv(r) && i < |r.handles| && Effective(r, i)
    ensures Wired(r) && r.handles[i].plan < |r.plans| && TakenBack(r, Undo(r, i), r.handles[i])
  {
    var h, s := r.handles[i], Undo(r, i);
    assert Wired(r) && !h.undone && h.plan < |r.plans|;
    hide *;
    NotReversedYet(r, i);
    RPU.UndoInv(r, i);
    UndoPlan(r, i);
    RestoredContexts(r, i);
    OneLessPrepared(r.handles, i);
    PlanCounts(s, h.plan);
    TakenBackBy(r, s, h, Restored(r, i));
  }

  /** The undo of an admitted call, run for the first time after any other calls and undos. It finds the plan the call
      worked on if the wallet has that one, or has none and it was the call that took the plan out; otherwise it
      changes no plan. It takes out of it the contexts the call added, puts those the call spent back that no other
      wallet has taken since, and counts the call out if it was a preparing one. The plan is then the wallet's, as old
      as ever, exactly when there is something in it. */
  lemma UndoneExactly(es: seq<Event>, w: Address, use: ContextUse, walletSigns: bool, now: Millis, more: seq<Event>)
    requires Admit(Run(EMPTY, es), w, use, walletSigns, now).outcome.Success?
    ensures var r0, a := Run(EMPTY, es), Admit(Run(EMPTY, es), w, use, walletSigns, now);
      var i, r := a.outcome.value, Run(a.after, more);
      && i < |r.handles| && Captured(r.handles[i], r0, a.after, w, use, walletSigns, now)
      && r.handles[i].plan < |r.plans|
      && (!r.handles[i].undone ==>
            var p := PlanFor(r0, w, now);
            if (if w in r.live then r.live[w] == p else TookOut(r0, a.after, w, use, now))
            then TakenBack(r, Undo(r, i), r.handles[i])
            else Undo(r, i).live == r.live && Undo(r, i).plans == r.plans)
  {
    var r0, a := Run(EMPTY, es), Admit(Run(EMPTY, es), w, use, walletSigns, now);
    hide *;
    var i, r := a.outcome.value, Run(a.after, more);
    RunInv(es);
    Reached(es, w, use, walletSigns, now, more);
    RPA.PreparedIn(r0, w);
    RPA.PreparedIn(r, w);
    AdmittedHandle(r0, w, use, walletSigns, now);
    RunHandles(a.after, more, i);
    StillCaptured(a.after.handles[i], r.handles[i], r0, a.after, w, use, walletSigns, now);
    HandlePlan(r, i);
    EffectiveExactly(r, i);
    if !r.handles[i].undone {
      CapturedFields(r.handles[i], r0, a.after, w, use, walletSigns, now);
      if Effective(r, i) {
        UndoTakesBack(r, i);
      }
    }
  }

  lemma {:induction false} Reached(es: seq<Event>, w: Address, use: ContextUse, walletSigns: bool, now: Millis,
                                   more: seq<Event>)
    ensures Inv(Run(Admit(Run(EMPTY, es), w, use, walletSigns, now).after, more))
  {
    if more == [] {
      RunInv(es);
      AdmitInv(Run(EMPTY, es), w, use, walletSigns, now);
    } else {
      Reached(es, w, use, walletSigns, now, more[..|more| - 1]);
      StepInv(Run(Admit(Run(EMPTY, es), w, use, walletSigns, now).after, more[..|more| - 1]), more[|more| - 1]);
      hide Inv, Step, Admit;
    }
  }

  lemma StillCaptured(h: Handle, k: Handle, r: Registry, s: Registry, w: Address, use: ContextUse, walletSigns: bool,
                      now: Millis)
    requires Wired(r) && SameCall(h, k) && Captured(h, r, s, w, use, walletSigns, now)
    ensures Captured(k, r, s, w, use, walletSigns, now)
  {
    hide PlanFor, TookOut, RPA.ContextsOf;
  }

  lemma CapturedFields(h: Handle, r: Registry, s: Registry, w: Address, use: ContextUse, walletSigns: bool, now: Millis)
    requires Wired(r) && Captured(h, r, s, w, use, walletSigns, now)
    ensures h.wallet == w && h.plan == PlanFor(r, w, now) && h.removedPlan == TookOut(r, s, w, use, now)
  {
  }

  lemma HandlePlan(r: Registry, i: nat)
    requires Wired(r) && i < |r.handles|
    ensures r.handles[i].plan < |r.plans|
  {
  }

  lemma EffectiveExactly(r: Registry, i: nat)
    requires Wired(r) && i < |r.handles|
    ensures var h := r.handles[i];
      && (Effective(r, i) <==> !h.undone && if h.wallet in r.live then r.live[h.wallet] == h.plan else h.removedPlan)
      && (!Effective(r, i) ==> Undo(r, i).live == r.live && Undo(r, i).plans == r.plans)
  {
    hide Restored;
  }
}
