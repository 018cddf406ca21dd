/** When the rent-plan registry admits a transaction, and what each refusal means, in every reachable registry:
    said of the plans that have not expired and of the calls that were admitted before. */
module RentPlanAnswers {
  import opened Basics
  import opened RentPlan
  import opened RentPlanRuns

  /** Wallet `w` has a plan that is at most five minutes old. */
  ghost predicate HasPlan(r: Registry, w: Address, now: Millis)
    requires Wired(r)
  {
    w in r.live && now - r.plans[r.live[w]].startedAt <= 300_000
  }

  /** The contexts of a wallet's plan, if it has one. */
  ghost function ContextsOf(r: Registry, w: Address, now: Millis): set<Address>
    requires Wired(r)
  {
    if HasPlan(r, w, now) then r.plans[r.live[w]].contexts else {}
  }

  ghost predicate Taken(r: Registry, c: Address, now: Millis)
    requires Wired(r)
  {
    exists w :: c in ContextsOf(r, w, now)
  }

  /** The preparing transactions admitted into a wallet's plan and not taken back. */
  ghost function Prepared(r: Registry, w: Address, now: Millis): nat
    requires Wired(r)
  {
    if HasPlan(r, w, now) then Outstanding(r.handles, r.live[w]) else 0
  }

  ghost function PlansInProgress(r: Registry, now: Millis): set<Address>
    requires Wired(r)
  {
    set w | w in r.live && HasPlan(r, w, now)
  }

  // ---- what there is to object to, in the order in which it is looked for ----

  predicate Unrelated(use: ContextUse, walletSigns: bool) {
    !walletSigns && use.created == [] && use.touched == []
  }

  ghost predicate Reuses(r: Registry, use: ContextUse, now: Millis)
    requires Wired(r)
  {
    exists c :: c in use.created && Taken(r, c, now)
  }

  ghost predicate Trespasses(r: Registry, w: Address, use: ContextUse, now: Millis)
    requires Wired(r)
  {
    exists c :: c in use.touched && c !in use.created && c !in ContextsOf(r, w, now)
  }

  /** A transaction that its wallet does not sign, or that creates a context, is a preparing one. */
  ghost predicate OnePreparationTooMany(r: Registry, w: Address, use: ContextUse, walletSigns: bool, now: Millis)
    requires Wired(r)
  {
    (!walletSigns || use.created != []) && Prepared(r, w, now) >= 6
  }

  ghost predicate OnePlanTooMany(r: Registry, w: Address, use: ContextUse, now: Millis)
    requires Wired(r)
  {
    !HasPlan(r, w, now) && use.created != [] && |PlansInProgress(r, now)| >= 2_000
  }

  lemma SweptPlans(r: Registry, w: Address, now: Millis)
    requires Wired(r)
    ensures var t := Sweep(r, now);
      && (w in t.live <==> HasPlan(r, w, now)) && (w in t.live ==> t.live[w] == r.live[w])
      && t.plans == r.plans && t.handles == r.handles
      && forall c :: Owns(t, w, c) <==> c in ContextsOf(r, w, now)
  {
  }

  lemma SweptCount(r: Registry, now: Millis)
    requires Wired(r)
    ensures |Sweep(r, now).live| == |PlansInProgress(r, now)|
  {
    var t := Sweep(r, now);
    assert t.live.Keys == PlansInProgress(r, now);
    assert |t.live| == |t.live.Keys|;
  }

  lemma SweptTaken(r: Registry, c: Address, now: Millis)
    requires Wired(r)
    ensures Owned(Sweep(r, now), c) <==> Taken(r, c, now)
  {
    hide *;
    forall w ensures Owns(Sweep(r, now), w, c) <==> c in ContextsOf(r, w, now) {
      SweptPlans(r, w, now);
    }
    TakenByOwners(r, Sweep(r, now), c, now);
  }

  lemma TakenByOwners(r: Registry, t: Registry, c: Address, now: Millis)
    requires Wired(r) && Wired(t) && forall w :: Owns(t, w, c) <==> c in ContextsOf(r, w, now)
    ensures Owned(t, c) <==> Taken(r, c, now)
  {
    hide Owns, ContextsOf;
  }

  lemma SweptPrepared(r: Registry, w: Address, now: Millis)
    requires Inv(r)
    ensures var t := Sweep(r, now);
      w in t.live && t.plans[t.live[w]].preparations >= 6 <==> Prepared(r, w, now) >= 6
  {
    SweptPlans(r, w, now);
  }

  lemma SweptUses(r: Registry, w: Address, use: ContextUse, now: Millis)
    requires Wired(r)
    ensures var t := Sweep(r, now);
      && ((exists c :: c in use.created && Owned(t, c)) <==> Reuses(r, use, now))
      && ((exists c :: c in use.touched && c !in use.created && !Owns(t, w, c)) <==> Trespasses(r, w, use, now))
  {
    forall c ensures Owned(Sweep(r, now), c) <==> Taken(r, c, now) {
      SweptTaken(r, c, now);
    }
    SweptPlans(r, w, now);
    hide Owned, Taken, Owns, ContextsOf;
  }

  /** The registry has objection `why`, and none of the earlier ones. */
  ghost predicate Objects(why: Refusal, r: Registry, w: Address, use: ContextUse, walletSigns: bool, now: Millis)
    requires Wired(r)
  {
    if Unrelated(use, walletSigns) then why == NoWalletRelation
    else if Reuses(r, use, now) then why == ContextReused
    else if Trespasses(r, w, use, now) then why == ForeignContext
    else if OnePreparationTooMany(r, w, use, walletSigns, now) then why == PlanFull
    else OnePlanTooMany(r, w, use, now) && why == RegistryFull
  }

  ghost predicate Unobjectionable(r: Registry, w: Address, use: ContextUse, walletSigns: bool, now: Millis)
    requires Wired(r)
  {
    && !Unrelated(use, walletSigns) && !Reuses(r, use, now) && !Trespasses(r, w, use, now)
    && !OnePreparationTooMany(r, w, use, walletSigns, now) && !OnePlanTooMany(r, w, use, now)
  }

  lemma RefusedIsFirst(r: Registry, w: Address, use: ContextUse, walletSigns: bool, now: Millis, why: Refusal)
    requires Inv(r)
    ensures Refused(Sweep(r, now), w, use, walletSigns) == Some(why) <==> Objects(why, r, w, use, walletSigns, now)
    ensures Refused(Sweep(r, now), w, use, walletSigns) == None <==> Unobjectionable(r, w, use, walletSigns, now)
  {
    hide *;
    PreparedIn(r, w);
    SweptUses(r, w, use, now);
    SweptPrepared(r, w, now);
    SweptPlans(r, w, now);
    SweptCount(r, now);
    ObjectsAre(r, Sweep(r, now), w, use, walletSigns, now, why);
  }

  lemma ObjectsAre(r: Registry, t: Registry, w: Address, use: ContextUse, walletSigns: bool, now: Millis, why: Refusal)
    requires Wired(r) && Wired(t)
    requires (exists c :: c in use.created && Owned(t, c)) <==> Reuses(r, use, now)
    requires (exists c :: c in use.touched && c !in use.created && !Owns(t, w, c)) <==> Trespasses(r, w, use, now)
    requires w in t.live && t.plans[t.live[w]].preparations >= 6 <==> Prepared(r, w, now) >= 6
    requires (w in t.live <==> HasPlan(r, w, now)) && |t.live| == |PlansInProgress(r, now)|
    ensures Refused(t, w, use, walletSigns) == Some(why) <==> Objects(why, r, w, use, walletSigns, now)
    ensures Refused(t, w, use, walletSigns) == None <==> Unobjectionable(r, w, use, walletSigns, now)
  {
    hide Owned, Owns, Reuses, Trespasses, Prepared, PlansInProgress, HasPlan;
  }

  lemma AfterOf(r: Registry, w: Address, use: ContextUse, walletSigns: bool, now: Millis)
    requires Wired(r)
    ensures var a, t := Admit(r, w, use, walletSigns, now), Sweep(r, now);
      match Refused(t, w, use, walletSigns)
      case Some(why) => a.after == t && a.outcome == Failure(why)
      case None => a.after == Accept(t, w, use, walletSigns, now) && a.outcome.Success?
  {
    hide Refused, Sweep, Accept;
  }

  /** In every reachable registry a transaction is admitted exactly when none of this can be said of it; the
      refusal is the first that can:
      - its wallet does not sign it and it neither creates nor touches a context;
      - it creates a context that is in a plan in progress;
      - it touches a context that it does not create and that is not in its wallet's plan in progress;
      - it is a preparing one, and six of those admitted into its wallet's plan were not taken back;
      - its wallet has no plan, it creates a context, and 2000 plans are in progress. */
  lemma AdmittedExactly(es: seq<Event>, w: Address, use: ContextUse, walletSigns: bool, now: Millis, why: Refusal)
    ensures var r, outcome := Run(EMPTY, es), Admit(Run(EMPTY, es), w, use, walletSigns, now).outcome;
      && (outcome.Success? <==> Unobjectionable(r, w, use, walletSigns, now))
      && (outcome == Failure(why) <==> Objects(why, r, w, use, walletSigns, now))
  {
    var r := Run(EMPTY, es);
    RunInv(es);
    RefusedIsFirst(r, w, use, walletSigns, now, why);
    AfterOf(r, w, use, walletSigns, now);
    hide *;
  }

  // ---- what an answer leaves behind ----

  /** Wallet `v` has in `s` the plan it had in progress in `r`. */
  ghost predicate PlanStays(r: Registry, s: Registry, v: Address, now: Millis)
    requires Wired(r) && Wired(s)
  {
    (v in s.live <==> HasPlan(r, v, now)) && (v in s.live ==> s.plans[s.live[v]] == r.plans[r.live[v]])
  }

  /** What wallet `w`'s plan holds once its transaction is admitted. */
  ghost predicate Updated(r: Registry, s: Registry, w: Address, use: ContextUse, walletSigns: bool, now: Millis)
    requires Wired(r) && Wired(s)
  {
    && (forall c :: Owns(s, w, c) <==> (c in ContextsOf(r, w, now) || c in use.created) && c !in use.closed)
    && (w in s.live <==>
          && (HasPlan(r, w, now) || use.created != [])
          && (walletSigns ==> exists c :: Owns(s, w, c)))
    && (w in s.live ==>
          && s.plans[s.live[w]].startedAt == (if HasPlan(r, w, now) then r.plans[r.live[w]].startedAt else now)
          && Outstanding(s.handles, s.live[w])
            == Prepared(r, w, now) + if !walletSigns || use.created != [] then 1 else 0)
  }

  lemma AcceptContexts(r: Registry, w: Address, use: ContextUse, walletSigns: bool, now: Millis, c: Address)
    requires Wired(r) && forall c :: c in use.created ==> !Owns(r, w, c)
    requires w in r.live || use.created != [] || walletSigns
    ensures var s := Accept(r, w, use, walletSigns, now);
      Owns(s, w, c) <==> (Owns(r, w, c) || c in use.created) && c !in use.closed
  {
    var base, h := BasePlan(r, w, now), MakeHandle(r, w, use, walletSigns, now);
    assert c in (base.contexts + h.added) - h.spent <==> (c in base.contexts || c in use.created) && c !in use.closed;
  }

  lemma AcceptPlan(r: Registry, w: Address, use: ContextUse, walletSigns: bool, now: Millis)
    requires Wired(r) && forall c :: c in use.created ==> !Owns(r, w, c)
    requires w in r.live || use.created != [] || walletSigns
    ensures var s := Accept(r, w, use, walletSigns, now);
      && (w in s.live <==> (w in r.live || use.created != []) && (walletSigns ==> exists c :: Owns(s, w, c)))
      && (w in s.live ==>
            && s.plans[s.live[w]].startedAt == (if w in r.live then r.plans[r.live[w]].startedAt else now)
            && s.plans[s.live[w]].preparations
              == (if w in r.live then r.plans[r.live[w]].preparations else 0)
                 + if !walletSigns || use.created != [] then 1 else 0)
  {
    var s := Accept(r, w, use, walletSigns, now);
    var base, h := BasePlan(r, w, now), MakeHandle(r, w, use, walletSigns, now);
    assert w in s.live ==> s.plans[s.live[w]].contexts == (base.contexts + h.added) - h.spent;
    if w in s.live && walletSigns {
      var c :| c in s.plans[s.live[w]].contexts;
      assert Owns(s, w, c);
    }
  }

  lemma AcceptOthers(r: Registry, w: Address, use: ContextUse, walletSigns: bool, now: Millis, v: Address)
    requires Wired(r) && v != w && (forall u :: u in r.live ==> r.plans[r.live[u]].wallet == u)
    ensures var s := Accept(r, w, use, walletSigns, now);
      (v in s.live <==> v in r.live) && (v in s.live ==> s.plans[s.live[v]] == r.plans[r.live[v]])
  {
  }

  lemma AcceptFacts(r: Registry, w: Address, use: ContextUse, walletSigns: bool)
    requires Wired(r) && Refused(r, w, use, walletSigns) == None
    ensures forall c :: c in use.created ==> !Owns(r, w, c)
    ensures w in r.live || use.created != [] || walletSigns
  {
    assert forall c :: Owns(r, w, c) ==> Owned(r, c);
    if w !in r.live && !walletSigns {
      NewPlanCreates(r, w, use, walletSigns);
    }
  }

  lemma PreparedIn(r: Registry, w: Address)
    requires Inv(r)
    ensures Wired(r) && forall v :: v in r.live ==> r.plans[r.live[v]].wallet == v
    ensures w in r.live ==> Outstanding(r.handles, r.live[w]) == r.plans[r.live[w]].preparations
  {
    hide Outstanding;
  }

  lemma PreparedBefore(r: Registry, w: Address, now: Millis)
    requires Inv(r)
    ensures Prepared(r, w, now) == if HasPlan(r, w, now) then r.plans[r.live[w]].preparations else 0
    ensures HasPlan(r, w, now) ==> w in r.live
  {
    PreparedIn(r, w);
    hide Inv, Outstanding;
  }

  lemma AcceptUpdates(r: Registry, w: Address, use: ContextUse, walletSigns: bool, now: Millis)
    requires Inv(r) && Refused(Sweep(r, now), w, use, walletSigns) == None
    ensures Updated(r, Accept(Sweep(r, now), w, use, walletSigns, now), w, use, walletSigns, now)
  {
    var t := Sweep(r, now);
    var s := Accept(t, w, use, walletSigns, now);
    hide *;
    SweepInv(r, now);
    AcceptInv(t, w, use, walletSigns, now);
    PreparedBefore(r, w, now);
    PreparedIn(t, w);
    PreparedIn(s, w);
    SweptPlans(r, w, now);
    AcceptFacts(t, w, use, walletSigns);
    forall c ensures Owns(s, w, c) <==> (c in ContextsOf(r, w, now) || c in use.created) && c !in use.closed {
      AcceptContexts(t, w, use, walletSigns, now, c);
    }
    AcceptPlan(t, w, use, walletSigns, now);
    UpdatedBy(r, s, w, use, walletSigns, now);
  }

  lemma UpdatedBy(r: Registry, s: Registry, w: Address, use: ContextUse, walletSigns: bool, now: Millis)
    requires Wired(r) && Wired(s)
    requires forall c :: Owns(s, w, c) <==> (c in ContextsOf(r, w, now) || c in use.created) && c !in use.closed
    requires w in s.live <==>
      (HasPlan(r, w, now) || use.created != []) && (walletSigns ==> exists c :: Owns(s, w, c))
    requires w in s.live ==>
      && s.plans[s.live[w]].startedAt == (if HasPlan(r, w, now) then r.plans[r.live[w]].startedAt else now)
      && Outstanding(s.handles, s.live[w])
        == Prepared(r, w, now) + if !walletSigns || use.created != [] then 1 else 0
    ensures Updated(r, s, w, use, walletSigns, now)
  {
    hide Owns, ContextsOf, HasPlan, Outstanding, Prepared;
  }

  /** An admitted transaction leaves its wallet's plan with the contexts it had and those just created, less those
      just closed; with one more preparation, if it was a preparing one; as old as it was, or new; and without the
      plan, if the wallet signed and nothing is left in it. Every other wallet's plan in progress stays as it was,
      and after a refusal every wallet's does. */
  lemma AdmittedUpdates(es: seq<Event>, w: Address, use: ContextUse, walletSigns: bool, now: Millis, v: Address)
    ensures var r, a := Run(EMPTY, es), Admit(Run(EMPTY, es), w, use, walletSigns, now);
      if a.outcome.Success? && v == w then Updated(r, a.after, w, use, walletSigns, now)
      else PlanStays(r, a.after, v, now)
  {
    var r := Run(EMPTY, es);
    RunInv(es);
    var t := Sweep(r, now);
    SweptPlans(r, v, now);
    AfterOf(r, w, use, walletSigns, now);
    if Refused(t, w, use, walletSigns) == None {
      if v == w {
        AcceptUpdates(r, w, use, walletSigns, now);
      } else {
        AcceptOthers(t, w, use, walletSigns, now, v);
      }
    }
    hide Run, Inv, Admit, Refused, Accept, Sweep, Updated;
  }
}
