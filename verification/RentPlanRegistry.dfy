/** The rent-plan registry as the program keeps it: a map of mutable plan objects, and undo closures that
    hold on to the plan they changed. Every method is proved against the state machine in `RentPlan`. */
module RentPlanRegistry {
  import opened Basics
  import RP = RentPlan
  import RPU = RentPlanUndo

  class PlanCell {
    ghost const id: nat
    ghost const wallet: Address
    const startedAt: Millis
    var preparations: nat
    var contexts: set<Address>

    constructor (ghost id: nat, ghost wallet: Address, startedAt: Millis)
      ensures this.id == id && this.wallet == wallet && this.startedAt == startedAt
      ensures preparations == 0 && contexts == {}
    {
      this.id, this.wallet, this.startedAt := id, wallet, startedAt;
      preparations, contexts := 0, {};
    }

    ghost function Value(): RP.Plan
      reads this
    {
      RP.Plan(wallet, startedAt, preparations, contexts)
    }
  }

  /** What an undo closure has captured. */
  class UndoHandle {
    ghost const id: nat
    const wallet: Address
    const plan: PlanCell
    const preparing: bool
    const added: seq<Address>
    const spent: seq<Address>
    const removedPlan: bool
    ghost const created: set<Address>
    var undone: bool
    ghost var reversed: bool

    constructor (ghost id: nat, wallet: Address, plan: PlanCell, preparing: bool, ghost created: set<Address>,
                 added: seq<Address>, spent: seq<Address>, removedPlan: bool)
      ensures this.id == id && this.plan == plan && !undone && !reversed
      ensures this.wallet == wallet && this.preparing == preparing && this.created == created
      ensures this.added == added && this.spent == spent && this.removedPlan == removedPlan
    {
      this.id, this.wallet, this.plan, this.preparing, this.created := id, wallet, plan, preparing, created;
      this.added, this.spent, this.removedPlan := added, spent, removedPlan;
      undone, reversed := false, false;
    }

    ghost function Value(): RP.Handle
      reads this
    {
      RP.Handle(wallet, plan.id, preparing, created, RP.Elems(added), RP.Elems(spent), removedPlan, undone, reversed)
    }
  }

  class Registry {
    var plans: map<Address, PlanCell>
    ghost var cells: seq<PlanCell>
    ghost var undos: seq<UndoHandle>

    /** Numbers and objects agree. */
    ghost predicate Wired()
      reads this
    {
      && (forall i :: 0 <= i < |cells| ==> cells[i].id == i)
      && (forall i :: 0 <= i < |undos| ==> undos[i].id == i)
      && (forall w :: w in plans ==> plans[w].id < |cells| && cells[plans[w].id] == plans[w])
      && (forall i :: 0 <= i < |undos| ==> undos[i].plan.id < |cells| && cells[undos[i].plan.id] == undos[i].plan)
    }

    static ghost function PlanValues(cells: seq<PlanCell>): (v: seq<RP.Plan>)
      reads cells
      ensures |v| == |cells|
    {
      seq(|cells|, i requires 0 <= i < |cells| reads cells => cells[i].Value())
    }

    static ghost function HandleValues(undos: seq<UndoHandle>): (v: seq<RP.Handle>)
      reads undos
      ensures |v| == |undos|
    {
      seq(|undos|, i requires 0 <= i < |undos| reads undos => undos[i].Value())
    }

    static ghost function Live(plans: map<Address, PlanCell>): map<Address, nat> {
      map w | w in plans :: plans[w].id
    }

    ghost function Abs(): (r: RP.Registry)
      requires Wired()
      reads this, cells, undos
      ensures RP.Wired(r)
    {
      RP.Registry(Live(plans), PlanValues(cells), HandleValues(undos))
    }

    ghost predicate Valid()
      reads this, cells, undos
    {
      Wired() && RP.Inv(Abs())
    }

    constructor ()
      ensures Valid() && Abs() == RP.EMPTY && cells == [] && undos == []
    {
      plans, cells, undos := map[], [], [];
      new;
      assert Abs() == RP.EMPTY;
      assert RP.Inv(RP.EMPTY);
    }

    /** The wallet whose live plan holds `c`: by `RentPlanRuns.NoContextShared` there is only one. */
    method OwnerOf(c: Address) returns (owner: Option<Address>)
      requires Wired()
      ensures owner.Some? ==> RP.Owns(Abs(), owner.value, c)
      ensures owner.None? ==> !RP.Owned(Abs(), c)
    {
      var todo := plans.Keys;
      while todo != {}
        invariant todo <= plans.Keys
        invariant forall w :: w in plans && w !in todo ==> c !in plans[w].contexts
        decreases todo
      {
        var w :| w in todo;
        if c in plans[w].contexts {
          return Some(w);
        }
        todo := todo - {w};
      }
      return None;
    }

    method Sweep(now: Millis)
      requires Wired()
      modifies this`plans
      ensures Wired() && Abs() == RP.Sweep(old(Abs()), now)
    {
      var todo := plans.Keys;
      ghost var all := plans;
      while todo != {}
        invariant todo <= all.Keys && plans.Keys <= all.Keys
        invariant forall w :: w in all ==> (w in plans <==> w in todo || !RP.Stale(all[w].Value(), now))
        invariant forall w :: w in plans ==> plans[w] == all[w]
        decreases todo
      {
        var w :| w in todo;
        if now - plans[w].startedAt > RP.PLAN_TTL_MS {
          plans := plans - {w};
        }
        todo := todo - {w};
      }
      SweptLive(all, now);
    }

    /** `plans` is what a sweep of `all` leaves. */
    lemma SweptLive(all: map<Address, PlanCell>, now: Millis)
      requires Wired() && forall w :: w in all ==> all[w].id < |cells| && cells[all[w].id] == all[w]
      requires forall w :: w in plans <==> w in all && !RP.Stale(all[w].Value(), now)
      requires forall w :: w in plans ==> plans[w] == all[w]
      requires RP.Wired(RP.Registry(Live(all), PlanValues(cells), HandleValues(undos)))
      ensures Abs() == RP.Sweep(RP.Registry(Live(all), PlanValues(cells), HandleValues(undos)), now)
    {
      assert Live(plans) == RP.Sweep(RP.Registry(Live(all), PlanValues(cells), HandleValues(undos)), now).live;
    }

    /** The two loops of checks over the contexts a transaction uses. */
    method CheckContexts(wallet: Address, use: RP.ContextUse) returns (bad: Option<RP.Refusal>)
      requires Wired()
      ensures bad == if exists c :: c in use.created && RP.Owned(Abs(), c) then Some(RP.ContextReused)
                     else if exists c ::
                       c in use.touched && c !in use.created && !RP.Owns(Abs(), wallet, c) then Some(RP.ForeignContext)
                     else None
    {
      for i := 0 to |use.created|
        invariant forall j :: 0 <= j < i ==> !RP.Owned(Abs(), use.created[j])
      {
        var owner := OwnerOf(use.created[i]);
        if owner.Some? {
          assert use.created[i] in use.created && RP.Owned(Abs(), use.created[i]);
          return Some(RP.ContextReused);
        }
      }
      for i := 0 to |use.touched|
        invariant forall j :: 0 <= j < i ==> use.touched[j] in use.created || RP.Owns(Abs(), wallet, use.touched[j])
      {
        var c := use.touched[i];
        if c !in use.created && !(wallet in plans && c in plans[wallet].contexts) {
          assert c in use.touched && !RP.Owns(Abs(), wallet, c);
          return Some(RP.ForeignContext);
        }
      }
      return None;
    }

    /** The checks of `admit`, in its order. */
    method Check(wallet: Address, use: RP.ContextUse, walletSigns: bool) returns (bad: Option<RP.Refusal>)
      requires Wired()
      ensures bad == RP.Refused(Abs(), wallet, use, walletSigns)
    {
      var preparing := !walletSigns || |use.created| > 0;
      if !walletSigns && |use.created| + |use.touched| == 0 {
        return Some(RP.NoWalletRelation);
      }
      bad := CheckContexts(wallet, use);
      if bad.Some? {
        return bad;
      }
      if preparing && wallet in plans && plans[wallet].preparations >= RP.MAX_PREPARATION_TXS {
        return Some(RP.PlanFull);
      }
      assert |Abs().live.Keys| == |plans.Keys| by { assert Abs().live.Keys == plans.Keys; }
      if wallet !in plans && |use.created| > 0 && |plans| >= RP.MAX_LIVE_PLANS {
        return Some(RP.RegistryFull);
      }
    }

    lemma Sealed(r: RP.Registry, w: Address, use: RP.ContextUse, walletSigns: bool, now: Millis)
      requires RP.Inv(r) && Wired() && Abs() == RP.Admit(r, w, use, walletSigns, now).after
      ensures Valid()
    {
      RP.AdmitInv(r, w, use, walletSigns, now);
    }

    method SweepAndCheck(wallet: Address, use: RP.ContextUse, walletSigns: bool, now: Millis)
        returns (bad: Option<RP.Refusal>)
      requires Wired()
      modifies this`plans
      ensures Wired() && Abs() == RP.Sweep(old(Abs()), now) && bad == RP.Refused(Abs(), wallet, use, walletSigns)
    {
      Sweep(now);
      bad := Check(wallet, use, walletSigns);
    }

    method Admit(wallet: Address, use: RP.ContextUse, walletSigns: bool, now: Millis)
        returns (r: Result<UndoHandle, RP.Refusal>)
      requires Valid()
      modifies this, cells
      ensures Valid()
      ensures Abs() == RP.Admit(old(Abs()), wallet, use, walletSigns, now).after
      ensures RP.Admit(old(Abs()), wallet, use, walletSigns, now).outcome == if r.Success? then Success(r.value.id)
        else Failure(r.error)
      ensures if r.Success? then fresh(r.value) && undos == old(undos) + [r.value] else undos == old(undos)
      ensures old(cells) <= cells && forall i :: |old(cells)| <= i < |cells| ==> fresh(cells[i])
    {
      ghost var r0 := Abs();
      Opened();
      AdmitCases(r0, wallet, use, walletSigns, now);
      hide *;
      var bad := SweepAndCheck(wallet, use, walletSigns, now);
      if bad.Some? {
        r := Failure(bad.value);
      } else {
        var h := Apply(wallet, use, walletSigns, now);
        r := Success(h);
      }
      Sealed(r0, wallet, use, walletSigns, now);
    }

    lemma Opened()
      requires Valid()
      ensures Wired() && RP.Inv(Abs()) && RP.Wired(Abs()) && |Abs().handles| == |undos|
    {
    }

    static lemma AdmitCases(r: RP.Registry, w: Address, use: RP.ContextUse, walletSigns: bool, now: Millis)
      requires RP.Wired(r)
      ensures var s, a := RP.Sweep(r, now), RP.Admit(r, w, use, walletSigns, now);
        |s.handles| == |r.handles| &&
        match RP.Refused(s, w, use, walletSigns)
        case Some(why) => a == RP.Admission(s, Failure(why))
        case None => a == RP.Admission(RP.Accept(s, w, use, walletSigns, now), Success(|s.handles|))
    {
    }

    /** The plan an accepted call works on, attached if the call needs it. */
    method BaseCell(wallet: Address, preparing: bool, now: Millis) returns (plan: PlanCell)
      requires Wired()
      modifies this`plans, this`cells
      ensures Wired() && undos == old(undos)
      ensures plan.id < |cells| && cells[plan.id] == plan
      ensures cells == if wallet in old(plans) then old(cells) else old(cells) + [plan]
      ensures wallet !in old(plans) ==> fresh(plan) && plan.id == |old(cells)|
      ensures plan.Value() == RP.BasePlan(old(Abs()), wallet, now)
      ensures if wallet in old(plans) then plan == old(plans)[wallet] && plans == old(plans)
              else plans == if preparing then old(plans)[wallet := plan] else old(plans)
    {
      if wallet in plans {
        plan := plans[wallet];
      } else {
        plan := new PlanCell(|cells|, wallet, now);
        cells := cells + [plan];
        if preparing {
          plans := plans[wallet := plan];
        }
      }
    }

    static lemma LiveUpdate(plans: map<Address, PlanCell>, w: Address, plan: PlanCell)
      ensures Live(plans[w := plan]) == Live(plans)[w := plan.id]
      ensures Live(plans - {w}) == Live(plans) - {w}
      ensures Live(plans[w := plan] - {w}) == Live(plans) - {w}
      ensures w in plans && plans[w] == plan ==> Live(plans) == Live(plans)[w := plan.id]
    {
    }

    static lemma AcceptFields(r: RP.Registry, w: Address, use: RP.ContextUse, walletSigns: bool, now: Millis)
      requires RP.Wired(r)
      ensures var s, h, base := RP.Accept(r, w, use, walletSigns, now), RP.MakeHandle(r, w, use, walletSigns, now),
        RP.BasePlan(r, w, now);
        && s.handles == r.handles + [h]
        && var plan :=
          base.(contexts := (base.contexts + h.added) - h.spent, preparations := base.preparations + if h.preparing then
             1 else 0);
        && s.plans == (if w in r.live then r.plans[h.plan := plan] else r.plans + [base][0 := plan])
        && s.live
          == (if w !in r.live && !h.preparing then r.live else if h.removedPlan then r.live - {w}
             else r.live[w := h.plan])
    {
    }

    /** What an accepted call does to the plan it works on. */
    method ChangeCell(wallet: Address, use: RP.ContextUse, preparing: bool, now: Millis)
        returns (plan: PlanCell, added: seq<Address>, spent: seq<Address>)
      requires Wired()
      modifies this`plans, this`cells, cells
      ensures Wired() && undos == old(undos) && plan.id < |cells| && cells[plan.id] == plan
      ensures old(cells) <= cells && forall i :: |old(cells)| <= i < |cells| ==> fresh(cells[i])
      ensures if wallet in old(plans) then plan == old(plans)[wallet] && plans == old(plans)
              else plan.id == |old(cells)| && plans == if preparing then old(plans)[wallet := plan] else old(plans)
      ensures RP.Elems(added) == RP.Elems(use.created) - RP.Elems(use.closed)
      ensures var base := RP.BasePlan(old(Abs()), wallet, now);
        && RP.Elems(spent) == (RP.Elems(use.closed) - RP.Elems(use.created)) * base.contexts
        && PlanValues(cells)
          == (if wallet in old(plans) then old(PlanValues(cells)) else old(PlanValues(cells)) + [base])
             [plan.id := base.(contexts := (base.contexts + RP.Elems(added)) - RP.Elems(spent),
                               preparations := base.preparations + if preparing then 1 else 0)]
    {
      plan := BaseCell(wallet, preparing, now);
      ghost var was := PlanValues(cells);
      assert was == if wallet in old(plans) then old(PlanValues(cells))
        else old(PlanValues(cells)) + [RP.BasePlan(old(Abs()), wallet, now)];
      hide RP.Elems, RP.BasePlan;
      added, spent := Update(plan, use, preparing);
      assert PlanValues(cells) == was[plan.id := plan.Value()];
    }

    /** What an accepted call does to the plans. */
    method ChangePlan(wallet: Address, use: RP.ContextUse, walletSigns: bool, now: Millis)
        returns (plan: PlanCell, added: seq<Address>, spent: seq<Address>, removedPlan: bool)
      requires Wired()
      modifies this`plans, this`cells, cells
      ensures Wired() && undos == old(undos)
      ensures plan.id < |cells| && cells[plan.id] == plan
      ensures old(cells) <= cells && forall i :: |old(cells)| <= i < |cells| ==> fresh(cells[i])
      ensures var h := RP.MakeHandle(old(Abs()), wallet, use, walletSigns, now);
        && plan.id == h.plan && RP.Elems(added) == h.added && RP.Elems(spent) == h.spent && removedPlan == h.removedPlan
      ensures var s := RP.Accept(old(Abs()), wallet, use, walletSigns, now);
        Live(plans) == s.live && PlanValues(cells) == s.plans
    {
      ghost var r, was := Abs(), plans;
      assert r.live == Live(plans) && r.plans == PlanValues(cells);
      hide RP.Accept, RP.MakeHandle, RP.BasePlan, RP.Elems, HandleValues, Live;
      var preparing := RP.Preparing(use, walletSigns);
      plan, added, spent := ChangeCell(wallet, use, preparing, now);
      ghost var mid, after := plans, PlanValues(cells);
      assert plan.contexts == plan.Value().contexts == after[plan.id].contexts;
      hide PlanValues;
      removedPlan := RemoveIfDone(wallet, walletSigns, plan);
      PlanChanged(r, wallet, use, walletSigns, now, was, mid, plan, added, spent, after, removedPlan);
    }

    /** The wallet's own transaction ends a plan that has no context left. */
    method RemoveIfDone(wallet: Address, walletSigns: bool, plan: PlanCell) returns (removedPlan: bool)
      requires Wired()
      modifies this`plans
      ensures Wired() && PlanValues(cells) == old(PlanValues(cells))
      ensures removedPlan <==> walletSigns && plan.contexts == {} && wallet in old(plans) && old(plans)[wallet] == plan
      ensures plans == if removedPlan then old(plans) - {wallet} else old(plans)
    {
      removedPlan := false;
      if walletSigns && plan.contexts == {} && wallet in plans && plans[wallet] == plan {
        plans := plans - {wallet};
        removedPlan := true;
      }
    }

    /** The steps on the plan cell come to what `RP.Accept` says. */
    static lemma PlanChanged(r: RP.Registry, w: Address, use: RP.ContextUse, walletSigns: bool, now: Millis,
                             was: map<Address, PlanCell>, mid: map<Address, PlanCell>, plan: PlanCell,
                             added: seq<Address>, spent: seq<Address>, after: seq<RP.Plan>, removedPlan: bool)
      requires RP.Wired(r) && r.live == Live(was)
      requires if w in was then plan == was[w] && mid == was
               else plan.id == |r.plans| && mid == if RP.Preparing(use, walletSigns) then was[w := plan] else was
      requires RP.Elems(added) == RP.Elems(use.created) - RP.Elems(use.closed)
      requires w in was ==> plan.id < |r.plans|
      requires var base := RP.BasePlan(r, w, now);
        && RP.Elems(spent) == (RP.Elems(use.closed) - RP.Elems(use.created)) * base.contexts
        && after == (if w in was then r.plans else r.plans + [base])
             [plan.id := base.(contexts := (base.contexts + RP.Elems(added)) - RP.Elems(spent),
                               preparations := base.preparations + if RP.Preparing(use, walletSigns) then 1 else 0)]
      requires removedPlan <==> walletSigns && after[plan.id].contexts == {} && w in mid && mid[w] == plan
      ensures var h, s := RP.MakeHandle(r, w, use, walletSigns, now), RP.Accept(r, w, use, walletSigns, now);
        && plan.id == h.plan && RP.Elems(added) == h.added && RP.Elems(spent) == h.spent && removedPlan == h.removedPlan
        && Live(if removedPlan then mid - {w} else mid) == s.live && after == s.plans
    {
      LiveUpdate(was, w, plan);
      AcceptFields(r, w, use, walletSigns, now);
      assert w in r.live <==> w in was;
      hide RP.Accept, RP.Elems, RP.BasePlan, Live;
    }

    /** The part of `admit` after its checks. */
    method Apply(wallet: Address, use: RP.ContextUse, walletSigns: bool, now: Millis) returns (h: UndoHandle)
      requires Wired()
      modifies this, cells
      ensures Wired() && Abs() == RP.Accept(old(Abs()), wallet, use, walletSigns, now)
      ensures fresh(h) && h.id == |old(undos)| && undos == old(undos) + [h]
      ensures old(cells) <= cells && forall i :: |old(cells)| <= i < |cells| ==> fresh(cells[i])
    {
      ghost var r := Abs();
      ghost var s := RP.Accept(r, wallet, use, walletSigns, now);
      HandleFields(r, wallet, use, walletSigns, now);
      hide RP.MakeHandle, RP.Accept, RP.BasePlan, RP.Elems, PlanValues, Live;
      var preparing := RP.Preparing(use, walletSigns);
      var plan, added, spent, removedPlan := ChangePlan(wallet, use, walletSigns, now);
      h := new UndoHandle(|undos|, wallet, plan, preparing, RP.Elems(use.created), added, spent, removedPlan);
      assert h.Value() == RP.MakeHandle(r, wallet, use, walletSigns, now);
      undos := undos + [h];
      assert HandleValues(undos) == s.handles;
    }

    static lemma HandleFields(r: RP.Registry, w: Address, use: RP.ContextUse, walletSigns: bool, now: Millis)
      requires RP.Wired(r)
      ensures var h := RP.MakeHandle(r, w, use, walletSigns, now);
        && RP.Accept(r, w, use, walletSigns, now).handles == r.handles + [h]
        && h.wallet == w && h.created == RP.Elems(use.created) && h.preparing == RP.Preparing(use, walletSigns)
        && !h.undone && !h.reversed
    {
    }

    method Update(plan: PlanCell, use: RP.ContextUse, preparing: bool)
        returns (added: seq<Address>, spent: seq<Address>)
      modifies plan
      ensures RP.Elems(added) == RP.Elems(use.created) - RP.Elems(use.closed)
      ensures RP.Elems(spent) == (RP.Elems(use.closed) - RP.Elems(use.created)) * old(plan.contexts)
      ensures plan.Value() == old(plan.Value()).(
                contexts := (old(plan.contexts) + RP.Elems(added)) - RP.Elems(spent),
                preparations := old(plan.preparations) + if preparing then 1 else 0)
    {
      if preparing {
        plan.preparations := plan.preparations + 1;
      }
      added, spent := AddAndSpend(plan, use);
    }

    /** Adds what is created and not closed at once, then takes out what is closed and was there. */
    method AddAndSpend(plan: PlanCell, use: RP.ContextUse) returns (added: seq<Address>, spent: seq<Address>)
      modifies plan`contexts
      ensures RP.Elems(added) == RP.Elems(use.created) - RP.Elems(use.closed)
      ensures RP.Elems(spent) == (RP.Elems(use.closed) - RP.Elems(use.created)) * old(plan.contexts)
      ensures plan.contexts == (old(plan.contexts) + RP.Elems(added)) - RP.Elems(spent)
    {
      added, spent := [], [];
      for i := 0 to |use.created|
        invariant forall c :: c in added <==> c in use.created[..i] && c !in use.closed
      {
        if use.created[i] !in use.closed {
          added := added + [use.created[i]];
        }
      }
      for i := 0 to |added|
        invariant plan.contexts == old(plan.contexts) + RP.Elems(added[..i])
      {
        plan.contexts := plan.contexts + {added[i]};
        assert added[..i + 1] == added[..i] + [added[i]];
      }
      assert added[..|added|] == added;
      ghost var full := plan.contexts;
      for i := 0 to |use.closed|
        invariant forall c :: c in spent <==> c in use.closed[..i] && c !in use.created && c in full
        invariant plan.contexts == full - RP.Elems(spent)
      {
        var c := use.closed[i];
        if c !in use.created && c in plan.contexts {
          plan.contexts := plan.contexts - {c};
          spent := spent + [c];
        }
      }
    }

    /** Wallets other than `w` have the plans they have in `r`. */
    ghost predicate OthersAgree(r: RP.Registry, w: Address)
      requires RP.Wired(r)
      reads this, plans.Values
    {
      forall v :: v != w ==>
        && (v in plans <==> v in r.live)
        && (v in plans ==> plans[v].contexts == r.plans[r.live[v]].contexts)
    }

    lemma OwnersSplit(r: RP.Registry, w: Address, c: Address)
      requires Wired() && RP.Wired(r) && OthersAgree(r, w)
      ensures RP.Owned(Abs(), c) <==> RP.OwnedByOther(r, w, c) || RP.Owns(Abs(), w, c)
    {
      forall v | v != w ensures RP.Owns(Abs(), v, c) <==> RP.Owns(r, v, c) {
      }
    }

    /** Registers `c` again unless another wallet has claimed it. */
    method PutBack(live: PlanCell, wallet: Address, c: Address, ghost r: RP.Registry)
      requires Wired() && RP.Wired(r) && OthersAgree(r, wallet)
      requires wallet in plans && plans[wallet] == live && forall v :: v in plans && v != wallet ==> plans[v] != live
      modifies live`contexts
      ensures OthersAgree(r, wallet)
      ensures live.contexts == old(live.contexts) + if RP.OwnedByOther(r, wallet, c) then {} else {c}
    {
      OwnersSplit(r, wallet, c);
      assert RP.Owns(Abs(), wallet, c) <==> c in live.contexts;
      var owner := OwnerOf(c);
      assert owner.Some? <==> RP.Owned(Abs(), c);
      if owner.None? {
        live.contexts := live.contexts + {c};
      }
    }

    /** The contexts an undo takes back and puts back, on a plan that is attached. */
    method Reverse(h: UndoHandle, ghost r: RP.Registry)
      requires Wired() && RP.Wired(r) && OthersAgree(r, h.wallet)
      requires h.wallet in plans && plans[h.wallet] == h.plan && forall v :: v in plans && v != h.wallet ==>
        plans[v] != h.plan
      modifies h.plan`contexts
      ensures h.plan.contexts == (old(h.plan.contexts) - RP.Elems(h.added))
                                 + (set c | c in RP.Elems(h.spent) && !RP.OwnedByOther(r, h.wallet, c))
    {
      var live := h.plan;
      for i := 0 to |h.added|
        invariant live.contexts == old(live.contexts) - RP.Elems(h.added[..i])
      {
        live.contexts := live.contexts - {h.added[i]};
        assert h.added[..i + 1] == h.added[..i] + [h.added[i]];
      }
      assert h.added[..|h.added|] == h.added;
      ghost var base := live.contexts;
      for i := 0 to |h.spent|
        invariant OthersAgree(r, h.wallet)
        invariant live.contexts == base + (set c | c in RP.Elems(h.spent[..i]) && !RP.OwnedByOther(r, h.wallet, c))
      {
        PutBack(live, h.wallet, h.spent[i], r);
        assert h.spent[..i + 1] == h.spent[..i] + [h.spent[i]];
      }
      assert h.spent[..|h.spent|] == h.spent;
    }

    static lemma UndoCases(r: RP.Registry, i: nat)
      requires RP.Wired(r) && i < |r.handles|
      ensures var h, s := r.handles[i], RP.Undo(r, i);
        if h.undone then s == r
        else if if h.wallet in r.live then r.live[h.wallet] != h.plan else !h.removedPlan
        then s == r.(handles := r.handles[i := h.(undone := true)])
        else var p := RP.Restored(r, i);
             && s.plans == r.plans[h.plan := p]
             && s.handles == r.handles[i := h.(undone := true, reversed := true)]
             && s.live == if p.contexts == {} && p.preparations == 0 then r.live - {h.wallet}
               else r.live[h.wallet := h.plan]
    {
    }

    lemma OthersFromLive(h: UndoHandle, r: RP.Registry)
      requires Wired() && RP.Wired(r) && RP.PlansOwned(r) && h.id < |r.handles|
      requires r.plans == PlanValues(cells) && r.handles[h.id].wallet == h.wallet && r.handles[h.id].plan == h.plan.id
      requires Live(plans) == r.live[h.wallet := h.plan.id]
      ensures OthersAgree(r, h.wallet) && forall v :: v in plans && v != h.wallet ==> plans[v] != h.plan
    {
      forall v | v != h.wallet
        ensures v in plans <==> v in r.live
        ensures v in plans ==> plans[v].id == r.live[v] && plans[v] != h.plan
      {
        assert v in Live(plans) <==> v in plans;
      }
    }

    /** The delta of `h`, taken back from its attached plan. */
    method Rebuild(h: UndoHandle, ghost r: RP.Registry)
      requires Wired() && RP.Wired(r) && RP.PlansOwned(r) && h in undos && |r.handles| == |undos|
      requires r.plans == PlanValues(cells) && r.handles[h.id].(undone := true, reversed := true) == h.Value()
      requires h.wallet in plans && plans[h.wallet] == h.plan
      requires Live(plans) == r.live[h.wallet := h.plan.id]
      modifies h.plan
      ensures h.plan.Value() == RP.Restored(r, h.id)
    {
      var live := h.plan;
      OthersFromLive(h, r);
      assert live.Value() == r.plans[live.id];
      hide PlanValues, Live, RP.PlansOwned, RP.Elems;
      Reverse(h, r);
      if h.preparing && live.preparations > 0 {
        live.preparations := live.preparations - 1;
      }
    }

    lemma OneCellChanged(plan: PlanCell, was: seq<RP.Plan>)
      requires Wired() && plan in cells && |was| == |cells|
      requires forall i :: 0 <= i < |cells| && cells[i] != plan ==> cells[i].Value() == was[i]
      ensures PlanValues(cells) == was[plan.id := plan.Value()]
    {
    }

    /** An undone plan with nothing left in it is forgotten. */
    method DropIfEmpty(wallet: Address, live: PlanCell)
      requires Wired() && wallet in plans && plans[wallet] == live
      modifies this`plans
      ensures Wired() && PlanValues(cells) == old(PlanValues(cells)) && HandleValues(undos) == old(HandleValues(undos))
      ensures Live(plans) == if live.contexts == {} && live.preparations == 0 then old(Live(plans)) - {wallet}
        else old(Live(plans))
    {
      LiveUpdate(plans, wallet, live);
      if live.contexts == {} && live.preparations == 0 {
        plans := plans - {wallet};
      }
    }

    method TakeBack(h: UndoHandle, ghost r: RP.Registry)
      requires Wired() && RP.Wired(r) && RP.PlansOwned(r) && h in undos && |r.handles| == |undos|
      requires r.plans == PlanValues(cells) && r.handles[h.id].(undone := true, reversed := true) == h.Value()
      requires h.wallet in plans && plans[h.wallet] == h.plan
      requires Live(plans) == r.live[h.wallet := h.plan.id]
      modifies h.plan
      ensures Wired() && HandleValues(undos) == old(HandleValues(undos))
      ensures h.plan.contexts == RP.Restored(r, h.id).contexts
        && h.plan.preparations == RP.Restored(r, h.id).preparations
      ensures PlanValues(cells) == r.plans[h.plan.id := RP.Restored(r, h.id)]
    {
      var live := h.plan;
      assert forall i :: 0 <= i < |cells| ==> cells[i].Value() == r.plans[i];
      hide RP.PlansOwned, RP.Restored, RP.Wired, PlanValues, HandleValues, Live;
      Rebuild(h, r);
      OneCellChanged(live, r.plans);
    }

    /** Marks a closure as run; `found` records whether it will find its plan. */
    method Mark(h: UndoHandle, ghost found: bool)
      requires Wired() && h in undos && !h.reversed
      modifies h`undone, h`reversed
      ensures PlanValues(cells) == old(PlanValues(cells))
      ensures h.Value() == old(h.Value()).(undone := true, reversed := found)
      ensures h.undone
        && HandleValues(undos) == old(HandleValues(undos))[h.id := old(h.Value()).(undone := true, reversed := found)]
    {
      h.undone, h.reversed := true, found;
      assert forall i :: 0 <= i < |undos| && i != h.id ==> undos[i] != h;
      assert forall i :: 0 <= i < |undos| && i != h.id ==> undos[i].Value() == old(undos[i].Value());
    }

    /** The plan an undo works on, put back if this handle removed it; false if there is none. */
    method Find(h: UndoHandle) returns (found: bool)
      requires Wired() && h in undos
      modifies this`plans
      ensures Wired()
      ensures found <==> if h.wallet in old(plans) then old(plans)[h.wallet] == h.plan else h.removedPlan
      ensures found <==> if h.wallet in old(Live(plans)) then old(Live(plans))[h.wallet] == h.plan.id else h.removedPlan
      ensures found ==>
        h.wallet in plans && plans[h.wallet] == h.plan && Live(plans) == old(Live(plans))[h.wallet := h.plan.id]
      ensures !found ==> plans == old(plans)
      ensures PlanValues(cells) == old(PlanValues(cells)) && HandleValues(undos) == old(HandleValues(undos))
    {
      LiveUpdate(plans, h.wallet, h.plan);
      found := true;
      if h.wallet !in plans {
        if !h.removedPlan {
          return false;
        }
        plans := plans[h.wallet := h.plan];
      } else if plans[h.wallet] != h.plan {
        return false;
      }
    }

    lemma Conclude(s: RP.Registry)
      requires Wired() && RP.Inv(s)
      requires Live(plans) == s.live && PlanValues(cells) == s.plans && HandleValues(undos) == s.handles
      ensures Valid() && Abs() == s
    {
    }

    lemma Start(h: UndoHandle)
      requires Valid() && h in undos
      ensures Wired() && RP.Wired(Abs()) && RP.Inv(Abs()) && RP.PlansOwned(Abs())
      ensures Abs() == RP.Registry(Live(plans), PlanValues(cells), HandleValues(undos)) && |Abs().handles| == |undos|
      ensures h.id < |undos| && undos[h.id] == h && Abs().handles[h.id] == h.Value() && (!h.undone ==> !h.reversed)
      ensures h.Value().undone == h.undone && h.Value().wallet == h.wallet && h.Value().plan == h.plan.id
      ensures h.Value().removedPlan == h.removedPlan && h.Value().reversed == h.reversed && h.plan in cells
    {
      assert Abs().handles[h.id] == h.Value();
    }

    /** A closure's first run. */
    method FirstRun(h: UndoHandle, ghost r: RP.Registry)
      requires Valid() && h in undos && !h.undone && r == Abs()
      modifies this`plans, h.plan, h`undone, h`reversed
      ensures Wired() && cells == old(cells) && undos == old(undos)
      ensures RP.Wired(r) && h.id < |r.handles|
      ensures var s := RP.Undo(r, h.id);
        Live(plans) == s.live && PlanValues(cells) == s.plans && HandleValues(undos) == s.handles
    {
      Start(h);
      UndoCases(r, h.id);
      hide *;
      Mark(h, if h.wallet in plans then plans[h.wallet] == h.plan else h.removedPlan);
      var found := Find(h);
      if found {
        TakeBack(h, r);
        DropIfEmpty(h.wallet, h.plan);
        LiveDrop(r.live, h.wallet, h.plan.id);
      }
    }

    static lemma LiveDrop(live: map<Address, nat>, w: Address, p: nat)
      ensures live[w := p] - {w} == live - {w}
    {
    }

    /** Runs an undo closure. */
    method Undo(h: UndoHandle)
      requires Valid() && h in undos
      modifies this`plans, cells, h`undone, h`reversed
      ensures Valid() && Abs() == RP.Undo(old(Abs()), h.id)
      ensures cells == old(cells) && undos == old(undos)
    {
      ghost var r := Abs();
      Start(h);
      RPU.UndoInv(r, h.id);
      UndoCases(r, h.id);
      hide *;
      if !h.undone {
        FirstRun(h, r);
        Conclude(RP.Undo(r, h.id));
      }
    }
  }
}
