/** The registry of rent-payment plans (backend/src/rentplan.ts) as a state machine over values.

    A plan and an undo closure are objects with identity in the source. Here each is a number: plans
    and undo handles are kept in the order they were made, and a registry maps a wallet to the number
    of its live plan. `RentPlanRegistry.dfy` holds the objects themselves. */
module RentPlan {
  import opened Basics

  const PLAN_TTL_MS: nat := 300_000
  const MAX_PREPARATION_TXS: nat := 6
  const MAX_LIVE_PLANS: nat := 2_000

  /** The context-state accounts one transaction creates, verifies into or closes. */
  datatype ContextUse = ContextUse(created: seq<Address>, touched: seq<Address>, closed: seq<Address>)

  /** `wallet` records for whom the plan was made; the program itself never reads it. */
  datatype Plan = Plan(wallet: Address, startedAt: Millis, preparations: nat, contexts: set<Address>)

  /** What one admitted call remembers. `created` and `reversed` are history: `reversed` says that the
      undo ran and found its plan. */
  datatype Handle = Handle(wallet: Address, plan: nat, preparing: bool, created: set<Address>, added: set<Address>,
                           spent: set<Address>, removedPlan: bool, undone: bool, reversed: bool)

  datatype Registry = Registry(live: map<Address, nat>, plans: seq<Plan>, handles: seq<Handle>)

  datatype Refusal = NoWalletRelation | ContextReused | ForeignContext | PlanFull | RegistryFull

  datatype Admission = Admission(after: Registry, outcome: Result<nat, Refusal>)

  const EMPTY := Registry(map[], [], [])

  /** Every plan number in use names a plan. */
  ghost predicate Wired(r: Registry) {
    && (forall w :: w in r.live ==> r.live[w] < |r.plans|)
    && (forall i :: 0 <= i < |r.handles| ==> r.handles[i].plan < |r.plans|)
  }

  function Elems<T>(s: seq<T>): set<T> { set x | x in s }

  ghost predicate Owns(r: Registry, w: Address, c: Address)
    requires Wired(r)
  {
    w in r.live && c in r.plans[r.live[w]].contexts
  }

  ghost predicate Owned(r: Registry, c: Address)
    requires Wired(r)
  {
    exists w :: Owns(r, w, c)
  }

  predicate Stale(p: Plan, now: Millis) {
    now - p.startedAt > PLAN_TTL_MS
  }

  ghost function Sweep(r: Registry, now: Millis): (s: Registry)
    requires Wired(r)
    ensures Wired(s)
  {
    r.(live := map w | w in r.live && !Stale(r.plans[r.live[w]], now) :: r.live[w])
  }

  predicate Preparing(use: ContextUse, walletSigns: bool) {
    !walletSigns || use.created != []
  }

  /** The checks of `admit`, in its order, on the swept registry. */
  ghost function Refused(r: Registry, w: Address, use: ContextUse, walletSigns: bool): Option<Refusal>
    requires Wired(r)
  {
    if !walletSigns && use.created == [] && use.touched == [] then Some(NoWalletRelation)
    else if exists c :: c in use.created && Owned(r, c) then Some(ContextReused)
    else if exists c :: c in use.touched && c !in use.created && !Owns(r, w, c) then Some(ForeignContext)
    else if Preparing(use, walletSigns) && w in r.live && r.plans[r.live[w]].preparations >= MAX_PREPARATION_TXS then
      Some(PlanFull)
    else if w !in r.live && use.created != [] && |r.live| >= MAX_LIVE_PLANS then Some(RegistryFull)
    else None
  }

  /** The plan an admitted call works on: the live one, or a new one not yet attached. */
  ghost function BasePlan(r: Registry, w: Address, now: Millis): Plan
    requires Wired(r)
  {
    if w in r.live then r.plans[r.live[w]] else Plan(w, now, 0, {})
  }

  ghost function MakeHandle(r: Registry, w: Address, use: ContextUse, walletSigns: bool, now: Millis): Handle
    requires Wired(r)
  {
    var base := BasePlan(r, w, now);
    var created, closed := Elems(use.created), Elems(use.closed);
    var added := created - closed;
    var spent := (closed - created) * base.contexts;
    var attached := w in r.live || Preparing(use, walletSigns);
    Handle(w, if w in r.live then r.live[w] else |r.plans|, Preparing(use, walletSigns), created, added, spent,
           walletSigns && attached && (base.contexts + added) - spent == {}, false, false)
  }

  /** The registry after an accepted call; the new handle is the last one. */
  ghost function Accept(r: Registry, w: Address, use: ContextUse, walletSigns: bool, now: Millis): (s: Registry)
    requires Wired(r)
    ensures Wired(s)
  {
    var base := BasePlan(r, w, now);
    var h := MakeHandle(r, w, use, walletSigns, now);
    var plan := base.(contexts := (base.contexts + h.added) - h.spent,
                     preparations := base.preparations + if h.preparing then 1 else 0);
    var plans := if w in r.live then r.plans[h.plan := plan] else r.plans + [plan];
    var attached := w in r.live || h.preparing;
    var live := if !attached then r.live else if h.removedPlan then r.live - {w} else r.live[w := h.plan];
    Registry(live, plans, r.handles + [h])
  }

  ghost function Admit(r: Registry, w: Address, use: ContextUse, walletSigns: bool, now: Millis): (a: Admission)
    requires Wired(r)
    ensures Wired(a.after)
  {
    var s := Sweep(r, now);
    match Refused(s, w, use, walletSigns)
    case Some(why) => Admission(s, Failure(why))
    case None => Admission(Accept(s, w, use, walletSigns, now), Success(|s.handles|))
  }

  ghost predicate OwnedByOther(r: Registry, w: Address, c: Address)
    requires Wired(r)
  {
    exists v :: v != w && Owns(r, v, c)
  }

  /** Whether running this undo changes a plan: its plan is live, or it is the one that removed it. */
  ghost predicate Effective(r: Registry, i: nat)
    requires Wired(r) && i < |r.handles|
  {
    var h := r.handles[i];
    !h.undone && if h.wallet in r.live then r.live[h.wallet] == h.plan else h.removedPlan
  }

  /** The plan of handle `i` after its delta is taken back. */
  ghost function Restored(r: Registry, i: nat): Plan
    requires Wired(r) && i < |r.handles|
  {
    var h := r.handles[i];
    var p := r.plans[h.plan];
    p.(contexts := (p.contexts - h.added) + (set c | c in h.spent && !OwnedByOther(r, h.wallet, c)),
       preparations := if h.preparing && p.preparations > 0 then p.preparations - 1 else p.preparations)
  }

  ghost function Undo(r: Registry, i: nat): (s: Registry)
    requires Wired(r) && i < |r.handles|
    ensures Wired(s)
  {
    var h := r.handles[i];
    if h.undone then r
    else if !Effective(r, i) then r.(handles := r.handles[i := h.(undone := true)])
    else
      var p := Restored(r, i);
      Registry(if p.contexts == {} && p.preparations == 0 then r.live - {h.wallet} else r.live[h.wallet := h.plan],
               r.plans[h.plan := p],
               r.handles[i := h.(undone := true, reversed := true)])
  }

  // ---------------------------------------------------------------------------------------------
  // What every reachable registry keeps
  // ---------------------------------------------------------------------------------------------

  /** How many admitted preparing calls on plan `p` have not been taken back. */
  ghost function Outstanding(hs: seq<Handle>, p: nat): nat {
    if hs == [] then 0
    else Outstanding(hs[..|hs| - 1], p) + if Counts(hs[|hs| - 1], p) then 1 else 0
  }

  predicate Counts(h: Handle, p: nat) {
    h.plan == p && h.preparing && !h.reversed
  }

  /** An undo put plan `p` back after a call of its own had removed it. */
  ghost predicate PutBack(hs: seq<Handle>, p: nat) {
    exists i :: 0 <= i < |hs| && hs[i].plan == p && hs[i].removedPlan && hs[i].reversed
  }

  /** The wallets whose live plan is there because `admit` started it, and not because an undo put it back. */
  ghost function NotPutBack(r: Registry): set<Address> {
    set w | w in r.live && !PutBack(r.handles, r.live[w])
  }

  /** An admitted call of wallet `w` among the first `n` created context `c`. */
  ghost predicate CreatedBy(hs: seq<Handle>, n: nat, w: Address, c: Address) {
    exists i :: 0 <= i < n && i < |hs| && hs[i].wallet == w && c in hs[i].created
  }

  /** This handle can still put its plan back. */
  predicate CanPutBack(h: Handle) {
    h.removedPlan && !h.undone
  }

  ghost predicate PlansOwned(r: Registry)
    requires Wired(r)
  {
    && (forall w :: w in r.live ==> r.plans[r.live[w]].wallet == w)
    && (forall i :: 0 <= i < |r.handles| ==> r.plans[r.handles[i].plan].wallet == r.handles[i].wallet)
  }

  ghost predicate Disjoint(r: Registry)
    requires Wired(r)
  {
    forall v, w, c :: Owns(r, v, c) && Owns(r, w, c) ==> v == w
  }

  /** A plan that can be put back is detached, empty, and has one handle that can do it. */
  ghost predicate Detached(r: Registry)
    requires Wired(r)
  {
    && (forall i :: 0 <= i < |r.handles| && CanPutBack(r.handles[i]) ==>
          && r.plans[r.handles[i].plan].contexts == {}
          && !(r.handles[i].wallet in r.live && r.live[r.handles[i].wallet] == r.handles[i].plan)
          && r.handles[i].added == {})
    && (forall i, j :: 0 <= i < j < |r.handles| && CanPutBack(r.handles[i]) && CanPutBack(r.handles[j]) ==>
          r.handles[i].plan != r.handles[j].plan)
    && (forall i :: 0 <= i < |r.handles| && r.handles[i].reversed ==> r.handles[i].undone)
  }

  /** Preparation counts are exact and capped; a live plan still has something in it. */
  ghost predicate Accounted(r: Registry)
    requires Wired(r)
  {
    && (forall p :: 0 <= p < |r.plans| ==> r.plans[p].preparations == Outstanding(r.handles, p))
    && (forall p :: 0 <= p < |r.plans| ==> r.plans[p].preparations <= MAX_PREPARATION_TXS)
    && (forall w :: w in r.live ==> r.plans[r.live[w]].preparations > 0 || r.plans[r.live[w]].contexts != {})
  }

  ghost predicate Provenance(r: Registry)
    requires Wired(r)
  {
    && (forall p, c :: 0 <= p < |r.plans| && c in r.plans[p].contexts ==>
         CreatedBy(r.handles, |r.handles|, r.plans[p].wallet, c))
    && (forall i, c :: 0 <= i < |r.handles| && c in r.handles[i].spent ==>
         CreatedBy(r.handles, |r.handles|, r.handles[i].wallet, c))
  }

  ghost predicate Bounded(r: Registry) {
    |NotPutBack(r)| <= MAX_LIVE_PLANS
  }

  ghost predicate Inv(r: Registry) {
    Wired(r) && PlansOwned(r) && Disjoint(r) && Detached(r) && Accounted(r) && Provenance(r) && Bounded(r)
  }

  lemma SweepInv(r: Registry, now: Millis)
    requires Inv(r)
    ensures Inv(Sweep(r, now))
  {
    var s := Sweep(r, now);
    CardinalityMonotone(NotPutBack(s), NotPutBack(r));
    assert forall w, c :: Owns(s, w, c) ==> Owns(r, w, c);
  }

  lemma CardinalityMonotone<T>(a: set<T>, b: set<T>)
    requires a <= b
    ensures |a| <= |b|
  {
    if a != {} {
      var x :| x in a;
      CardinalityMonotone(a - {x}, b - {x});
    }
  }

  lemma OutstandingNew(hs: seq<Handle>, p: nat)
    requires forall i :: 0 <= i < |hs| ==> hs[i].plan != p
    ensures Outstanding(hs, p) == 0
  {
    if hs != [] {
      OutstandingNew(hs[..|hs| - 1], p);
    }
  }

  lemma OutstandingUpdate(hs: seq<Handle>, i: nat, h: Handle, p: nat)
    requires i < |hs|
    ensures Outstanding(hs[i := h], p) + (if Counts(hs[i], p) then 1 else 0)
         == Outstanding(hs, p) + (if Counts(h, p) then 1 else 0)
  {
    var n := |hs| - 1;
    if i == n {
      assert hs[i := h][..n] == hs[..n];
    } else {
      assert hs[i := h][..n] == hs[..n][i := h];
      OutstandingUpdate(hs[..n], i, h, p);
    }
  }

  // ---- an accepted call keeps the invariant ----

  /** How an accepted call with handle `h` takes `r` to `s`, working on plan `base`. */
  ghost predicate Accepted(r: Registry, s: Registry, h: Handle, base: Plan) {
    && Wired(r) && Wired(s)
    && s.handles == r.handles + [h] && !h.undone && !h.reversed
    && base.wallet == h.wallet
    && (if h.wallet in r.live then h.plan == r.live[h.wallet] && base == r.plans[h.plan]
        else h.plan == |r.plans| && base.preparations == 0 && base.contexts == {})
    && h.added <= h.created && h.spent <= base.contexts && h.added !! h.spent
    && var plan :=
      base.(contexts := (base.contexts + h.added) - h.spent, preparations := base.preparations + if h.preparing then 1
         else 0);
    && s.plans == (if h.wallet in r.live then r.plans[h.plan := plan] else r.plans + [plan])
    && s.live == (if h.wallet !in r.live && !h.preparing then r.live
                  else if h.removedPlan then r.live - {h.wallet} else r.live[h.wallet := h.plan])
    && (h.removedPlan ==> plan.contexts == {} && (h.wallet in r.live || h.preparing))
    && (!h.removedPlan && h.wallet in r.live ==> plan.preparations > 0 || plan.contexts != {})
  }

  /** What the checks of an accepted call establish. */
  ghost predicate Checked(r: Registry, h: Handle, base: Plan)
    requires Wired(r)
  {
    && (forall c :: c in h.created ==> !Owned(r, c))
    && (h.preparing ==> base.preparations < MAX_PREPARATION_TXS)
    && (h.wallet !in r.live && h.preparing ==> |r.live| < MAX_LIVE_PLANS)
  }

  lemma AcceptIsAccepted(r: Registry, w: Address, use: ContextUse, walletSigns: bool, now: Millis)
    requires Wired(r)
    requires forall v :: v in r.live ==> r.plans[r.live[v]].wallet == v
    ensures Accepted(r, Accept(r, w, use, walletSigns, now), MakeHandle(r, w, use, walletSigns, now),
        BasePlan(r, w, now))
  {
  }

  /** A wallet without a plan only gets one by creating a context: anything else it touches is foreign. */
  lemma NewPlanCreates(r: Registry, w: Address, use: ContextUse, walletSigns: bool)
    requires Wired(r) && w !in r.live && Preparing(use, walletSigns)
    requires Refused(r, w, use, walletSigns) == None
    ensures use.created != []
  {
    if use.touched != [] {
      assert use.touched[0] in use.touched;
    }
  }

  lemma AcceptIsChecked(r: Registry, w: Address, use: ContextUse, walletSigns: bool, now: Millis)
    requires Wired(r) && Refused(r, w, use, walletSigns) == None
    ensures Checked(r, MakeHandle(r, w, use, walletSigns, now), BasePlan(r, w, now))
  {
    if w !in r.live && Preparing(use, walletSigns) {
      NewPlanCreates(r, w, use, walletSigns);
    }
  }

  lemma AcceptedDisjoint(r: Registry, s: Registry, h: Handle, base: Plan, u: Address, v: Address, c: Address)
    requires Accepted(r, s, h, base) && Checked(r, h, base) && PlansOwned(r) && Disjoint(r)
    requires Owns(s, u, c) && Owns(s, v, c)
    ensures u == v
  {
    if u != v {
      OwnsAfter(r, s, h, base, u, c);
      OwnsAfter(r, s, h, base, v, c);
    }
  }

  lemma OwnsAfter(r: Registry, s: Registry, h: Handle, base: Plan, v: Address, c: Address)
    requires Accepted(r, s, h, base) && PlansOwned(r)
    ensures v != h.wallet ==> (Owns(s, v, c) <==> Owns(r, v, c))
    ensures Owns(s, h.wallet, c) ==> Owns(r, h.wallet, c) || c in h.created
    ensures Owns(r, v, c) ==> Owned(r, c)
  {
    assert v != h.wallet && v in r.live ==> r.live[v] != h.plan;
  }

  lemma AcceptedPlansOwned(r: Registry, s: Registry, h: Handle, base: Plan)
    requires Accepted(r, s, h, base) && PlansOwned(r)
    ensures PlansOwned(s)
  {
  }

  lemma AcceptedOwned(r: Registry, s: Registry, h: Handle, base: Plan)
    requires Accepted(r, s, h, base) && Checked(r, h, base) && PlansOwned(r) && Disjoint(r)
    ensures PlansOwned(s) && Disjoint(s)
  {
    AcceptedPlansOwned(r, s, h, base);
    hide Accepted, Checked, PlansOwned, Owns;
    forall u, v, c | Owns(s, u, c) && Owns(s, v, c) ensures u == v {
      AcceptedDisjoint(r, s, h, base, u, v, c);
    }
  }

  lemma AcceptedDetached(r: Registry, s: Registry, h: Handle, base: Plan)
    requires Accepted(r, s, h, base) && PlansOwned(r) && Detached(r)
    ensures Detached(s)
  {
    forall i | 0 <= i < |r.handles| && CanPutBack(r.handles[i])
      ensures s.handles[i] == r.handles[i] && r.handles[i].plan != h.plan
    {
    }
    if h.removedPlan {
      assert h.added <= s.plans[h.plan].contexts;
    }
  }

  lemma AcceptedCount(r: Registry, s: Registry, h: Handle, base: Plan, p: nat)
    requires Accepted(r, s, h, base) && Checked(r, h, base) && Accounted(r) && p < |s.plans|
    ensures s.plans[p].preparations == Outstanding(s.handles, p) <= MAX_PREPARATION_TXS
  {
    assert s.handles[..|s.handles| - 1] == r.handles;
    if h.wallet !in r.live && p == |r.plans| {
      OutstandingNew(r.handles, p);
    }
  }

  lemma AcceptedAccounted(r: Registry, s: Registry, h: Handle, base: Plan)
    requires Accepted(r, s, h, base) && Checked(r, h, base) && PlansOwned(r) && Accounted(r)
    ensures Accounted(s)
  {
    forall p | 0 <= p < |s.plans|
      ensures s.plans[p].preparations == Outstanding(s.handles, p) <= MAX_PREPARATION_TXS
    {
      AcceptedCount(r, s, h, base, p);
    }
    forall v | v in s.live
      ensures s.plans[s.live[v]].preparations > 0 || s.plans[s.live[v]].contexts != {}
    {
      assert v != h.wallet ==> v in r.live && s.live[v] == r.live[v] && s.live[v] != h.plan;
    }
  }

  lemma CreatedByGrows(hs: seq<Handle>, h: Handle, w: Address, c: Address)
    requires CreatedBy(hs, |hs|, w, c)
    ensures CreatedBy(hs + [h], |hs| + 1, w, c)
  {
    var i :| 0 <= i < |hs| && hs[i].wallet == w && c in hs[i].created;
    assert (hs + [h])[i] == hs[i];
  }

  lemma AcceptedProvenance(r: Registry, s: Registry, h: Handle, base: Plan)
    requires Accepted(r, s, h, base) && PlansOwned(r) && Provenance(r)
    ensures Provenance(s)
  {
    var n := |r.handles|;
    assert s.handles[n] == h;
    forall w, c | CreatedBy(r.handles, n, w, c) ensures CreatedBy(s.handles, n + 1, w, c) {
      CreatedByGrows(r.handles, h, w, c);
    }
    forall p, c | 0 <= p < |s.plans| && c in s.plans[p].contexts
      ensures CreatedBy(s.handles, n + 1, s.plans[p].wallet, c)
    {
      if p == h.plan {
        assert c in base.contexts || c in h.added;
      }
    }
  }

  /** A handle not yet run puts nothing back; a plan without handles has not been put back. */
  lemma PutBackKept(hs: seq<Handle>, h: Handle, p: nat)
    requires !h.reversed
    ensures PutBack(hs + [h], p) <==> PutBack(hs, p)
  {
    if i :| 0 <= i < |hs| && hs[i].plan == p && hs[i].removedPlan && hs[i].reversed {
      assert (hs + [h])[i] == hs[i];
    }
  }

  lemma AcceptedBounded(r: Registry, s: Registry, h: Handle, base: Plan)
    requires Accepted(r, s, h, base) && Checked(r, h, base) && Bounded(r)
    ensures Bounded(s)
  {
    forall w | w in NotPutBack(s) ensures w in NotPutBack(r) || (w == h.wallet && w !in r.live && h.preparing) {
      PutBackKept(r.handles, h, s.live[w]);
    }
    if h.wallet !in r.live && h.preparing {
      CardinalityMonotone(NotPutBack(s), r.live.Keys + {h.wallet});
    } else {
      CardinalityMonotone(NotPutBack(s), NotPutBack(r));
    }
  }

  lemma AcceptInv(r: Registry, w: Address, use: ContextUse, walletSigns: bool, now: Millis)
    requires Inv(r) && Refused(r, w, use, walletSigns) == None
    ensures Inv(Accept(r, w, use, walletSigns, now))
  {
    var s, h, base := Accept(r, w, use, walletSigns, now), MakeHandle(r, w, use, walletSigns, now), BasePlan(r, w, now);
    AcceptIsAccepted(r, w, use, walletSigns, now);
    AcceptIsChecked(r, w, use, walletSigns, now);
    hide Accept, MakeHandle, BasePlan, Accepted, Checked, Refused, Wired, PlansOwned, Disjoint, Detached, Accounted,
      Provenance, Bounded;
    AcceptedOwned(r, s, h, base);
    AcceptedDetached(r, s, h, base);
    AcceptedAccounted(r, s, h, base);
    AcceptedProvenance(r, s, h, base);
    AcceptedBounded(r, s, h, base);
  }

  lemma AdmitInv(r: Registry, w: Address, use: ContextUse, walletSigns: bool, now: Millis)
    requires Inv(r)
    ensures Inv(Admit(r, w, use, walletSigns, now).after)
  {
    var s := Sweep(r, now);
    SweepInv(r, now);
    hide Sweep, Refused, Accept, Inv, PlansOwned, Disjoint, Detached, Accounted, Provenance, Bounded;
    assert Wired(s);
    if Refused(s, w, use, walletSigns) == None {
      AcceptInv(s, w, use, walletSigns, now);
    }
  }
}
