/** What holds over every run of the rent-plan registry: any interleaving of admissions and undos, with
    undos delayed, repeated, out of order, after expiry or after their plan was replaced. */
module RentPlanRuns {
  import opened Basics
  import opened RentPlan
  import opened RentPlanUndo

  datatype Event =
    | AdmitCall(wallet: Address, use: ContextUse, walletSigns: bool, now: Millis)
    | UndoCall(handle: nat)

  ghost function Step(r: Registry, e: Event): (s: Registry)
    requires Wired(r)
    ensures Wired(s)
  {
    match e
    case AdmitCall(w, use, signs, now) => Admit(r, w, use, signs, now).after
    case UndoCall(i) => if i < |r.handles| then Undo(r, i) else r
  }

  ghost function Run(r: Registry, es: seq<Event>): (s: Registry)
    requires Wired(r)
    ensures Wired(s)
  {
    if es == [] then r else Step(Run(r, es[..|es| - 1]), es[|es| - 1])
  }

  lemma {:induction false} RunInv(es: seq<Event>)
    ensures Inv(Run(EMPTY, es))
  {
    if es != [] {
      RunInv(es[..|es| - 1]);
      StepInv(Run(EMPTY, es[..|es| - 1]), es[|es| - 1]);
    }
  }

  lemma StepInv(r: Registry, e: Event)
    requires Inv(r)
    ensures Inv(Step(r, e))
  {
    match e
    case AdmitCall(w, use, signs, now) => AdmitInv(r, w, use, signs, now);
    case UndoCall(i) => if i < |r.handles| { UndoInv(r, i); }
  }

  /** No context ever belongs to two wallets. */
  lemma NoContextShared(es: seq<Event>, v: Address, w: Address, c: Address)
    requires Owns(Run(EMPTY, es), v, c) && Owns(Run(EMPTY, es), w, c)
    ensures v == w
  {
    RunInv(es);
  }

  /** A plan's preparation count is the number of preparing admissions not taken back, never above the
      cap; an undo that finds its plan always has one to take back; no live plan is empty. */
  lemma PreparationsExact(es: seq<Event>)
    ensures var r := Run(EMPTY, es);
      && (forall p :: 0 <= p < |r.plans| ==>
           r.plans[p].preparations == Outstanding(r.handles, p) <= MAX_PREPARATION_TXS)
      && (forall i :: 0 <= i < |r.handles| && r.handles[i].preparing && Effective(r, i) ==>
           r.plans[r.handles[i].plan].preparations > 0)
      && (forall w :: w in r.live ==> r.plans[r.live[w]].preparations > 0 || r.plans[r.live[w]].contexts != {})
  {
    RunInv(es);
    var r := Run(EMPTY, es);
    forall i | 0 <= i < |r.handles| && r.handles[i].preparing && Effective(r, i)
      ensures r.plans[r.handles[i].plan].preparations > 0
    {
      UndoGuardPasses(r, i);
    }
  }

  lemma AdmittedTouches(r: Registry, w: Address, use: ContextUse, walletSigns: bool, now: Millis, c: Address)
    requires Wired(r) && Admit(r, w, use, walletSigns, now).outcome.Success?
    requires c in use.touched && c !in use.created
    ensures Owns(r, w, c)
  {
    assert Refused(Sweep(r, now), w, use, walletSigns) == None;
    assert Owns(Sweep(r, now), w, c);
  }

  lemma OwnedIsCreated(r: Registry, w: Address, c: Address)
    requires Inv(r) && Owns(r, w, c)
    ensures CreatedBy(r.handles, |r.handles|, w, c)
  {
  }

  /** Every context registered to a wallet, and every context one of its admitted transactions touches,
      was created by that transaction or an earlier admitted one of the same wallet. */
  lemma ContextsHaveProvenance(es: seq<Event>, w: Address, use: ContextUse, walletSigns: bool, now: Millis, c: Address)
    ensures var r := Run(EMPTY, es);
      && (Owns(r, w, c) ==> CreatedBy(r.handles, |r.handles|, w, c))
      && (Admit(r, w, use, walletSigns, now).outcome.Success? && c in use.touched ==>
            c in use.created || CreatedBy(r.handles, |r.handles|, w, c))
  {
    RunInv(es);
    var r := Run(EMPTY, es);
    if Owns(r, w, c) {
      OwnedIsCreated(r, w, c);
    } else if Admit(r, w, use, walletSigns, now).outcome.Success? && c in use.touched && c !in use.created {
      AdmittedTouches(r, w, use, walletSigns, now, c);
    }
  }

  ghost predicate Gone(r: Registry, w: Address, p: nat)
    requires Wired(r)
  {
    && p < |r.plans| && r.plans[p].wallet == w
    && (w !in r.live || r.live[w] != p)
    && (forall i :: 0 <= i < |r.handles| && r.handles[i].plan == p ==> !CanPutBack(r.handles[i]))
  }

  lemma GoneAccepted(r: Registry, s: Registry, h: Handle, base: Plan, v: Address, p: nat)
    requires Accepted(r, s, h, base) && PlansOwned(r) && Gone(r, v, p)
    ensures Gone(s, v, p)
  {
    assert h.plan != p;
  }

  lemma GoneReversed(r: Registry, s: Registry, i: nat, q: Plan, v: Address, p: nat)
    requires Reversed(r, s, i, q) && PlansOwned(r) && Gone(r, v, p)
    ensures Gone(s, v, p)
  {
    assert r.handles[i].plan != p;
  }

  lemma GoneStep(r: Registry, e: Event, v: Address, p: nat)
    requires Inv(r) && Gone(r, v, p)
    ensures Gone(Step(r, e), v, p)
  {
    hide Accept, Sweep, Refused, MakeHandle, BasePlan, Restored;
    match e
    case AdmitCall(w, use, signs, now) =>
      var t := Sweep(r, now);
      SweepInv(r, now);
      GoneSweep(r, now, v, p);
      if Refused(t, w, use, signs) == None {
        AcceptIsAccepted(t, w, use, signs, now);
        GoneAccepted(t, Accept(t, w, use, signs, now), MakeHandle(t, w, use, signs, now), BasePlan(t, w, now), v, p);
      }
    case UndoCall(i) =>
      if i < |r.handles| && Effective(r, i) {
        UndoIsReversed(r, i);
        GoneReversed(r, Undo(r, i), i, Restored(r, i), v, p);
      }
  }

  lemma GoneSweep(r: Registry, now: Millis, v: Address, p: nat)
    requires Wired(r) && Gone(r, v, p)
    ensures Gone(Sweep(r, now), v, p)
  {
  }

  /** Where a plan can end up that the sweep took: a sweep leaves no handle able to put it back. */
  lemma SweptIsGone(es: seq<Event>, w: Address, now: Millis)
    requires var r := Run(EMPTY, es); w in r.live && w !in Sweep(r, now).live
    ensures var r := Run(EMPTY, es); Gone(Sweep(r, now), w, r.live[w])
  {
    RunInv(es);
  }

  /** A plan the sweep removes is never put back, by any undo in any later run. */
  lemma {:induction false} SweptPlansStayGone(es: seq<Event>, w: Address, now: Millis, more: seq<Event>)
    requires var r := Run(EMPTY, es); w in r.live && w !in Sweep(r, now).live
    ensures var p := Run(EMPTY, es).live[w];
            var s := Run(Sweep(Run(EMPTY, es), now), more);
            Inv(s) && (w in s.live ==> s.live[w] != p) && Gone(s, w, p)
  {
    if more == [] {
      RunInv(es);
      SweepInv(Run(EMPTY, es), now);
      SweptIsGone(es, w, now);
    } else {
      var n := |more| - 1;
      SweptPlansStayGone(es, w, now, more[..n]);
      GoneStep(Run(Sweep(Run(EMPTY, es), now), more[..n]), more[n], w, Run(EMPTY, es).live[w]);
      StepInv(Run(Sweep(Run(EMPTY, es), now), more[..n]), more[n]);
    }
  }

  // ---------------------------------------------------------------------------------------------
  // Reversal
  // ---------------------------------------------------------------------------------------------

  /** `s` is `r` with more history: the same live plans, and every earlier plan and handle as it was. */
  ghost predicate Extends(s: Registry, r: Registry) {
    s.live == r.live && r.plans <= s.plans && r.handles <= s.handles
  }

  lemma LaterHandle(r: Registry, s: Registry, h: Handle, base: Plan, later: Registry)
    requires Accepted(r, s, h, base) && Extends(later, s)
    ensures |r.handles| < |later.handles| && later.handles[|r.handles|] == h
    ensures h.plan < |s.plans| && h.plan < |later.plans| && later.plans[h.plan] == s.plans[h.plan]
  {
    assert later.handles[|r.handles|] == s.handles[|r.handles|];
  }

  lemma SpentStaysFree(r: Registry, s: Registry, h: Handle, base: Plan, later: Registry, c: Address)
    requires Accepted(r, s, h, base) && PlansOwned(r) && Disjoint(r)
    requires Wired(later) && Extends(later, s) && c in h.spent
    ensures !OwnedByOther(later, h.wallet, c)
  {
    assert Owns(r, h.wallet, c);
    forall v | v != h.wallet ensures !Owns(later, v, c) {
      OwnsAfter(r, s, h, base, v, c);
      assert v in s.live ==> later.plans[s.live[v]] == s.plans[s.live[v]];
      assert Owns(later, v, c) <==> Owns(s, v, c);
    }
  }

  /** What the undo of an accepted call computes is the plan the call started from. */
  lemma RestoredIsBase(r: Registry, s: Registry, h: Handle, base: Plan, later: Registry)
    requires Accepted(r, s, h, base) && Checked(r, h, base) && PlansOwned(r) && Disjoint(r)
    requires Wired(later) && Extends(later, s)
    ensures |r.handles| < |later.handles| && Restored(later, |r.handles|) == base
  {
    LaterHandle(r, s, h, base, later);
    forall c | c in h.spent ensures !OwnedByOther(later, h.wallet, c) {
      SpentStaysFree(r, s, h, base, later, c);
    }
    assert (set c | c in h.spent && !OwnedByOther(later, h.wallet, c)) == h.spent;
    forall c | c in base.contexts ensures c !in h.added {
      assert Owns(r, h.wallet, c) ==> Owned(r, c);
    }
    DeltaCancels(base.contexts, h.added, h.spent);
  }

  lemma DeltaCancels<T>(base: set<T>, added: set<T>, spent: set<T>)
    requires added !! base && spent <= base
    ensures (((base + added) - spent) - added) + spent == base
  {
  }

  /** Undoing call `h` in a later registry that still has its effect gives back the registry before it. */
  lemma UndoReversesAccepted(r: Registry, s: Registry, h: Handle, base: Plan, later: Registry)
    requires Accepted(r, s, h, base) && Wired(later) && Extends(later, s) && |r.handles| < |later.handles|
    requires Restored(later, |r.handles|) == base
    requires h.wallet in r.live ==> base.preparations > 0 || base.contexts != {}
    ensures Extends(Undo(later, |r.handles|), r)
  {
    var n := |r.handles|;
    LaterHandle(r, s, h, base, later);
    assert Effective(later, n) <==> (h.wallet in r.live || h.preparing);
    hide Effective, Restored;
    var t := Undo(later, n);
    forall p | 0 <= p < |r.plans| ensures t.plans[p] == r.plans[p] {
      assert p != h.plan ==> later.plans[p] == s.plans[p];
    }
    assert t.live == r.live;
  }

  lemma UndoReverses(r: Registry, w: Address, use: ContextUse, walletSigns: bool, now: Millis, later: Registry)
    requires Inv(r) && Refused(r, w, use, walletSigns) == None
    requires Wired(later) && Extends(later, Accept(r, w, use, walletSigns, now))
    ensures |r.handles| < |later.handles| && Extends(Undo(later, |r.handles|), r)
  {
    var s, h, base := Accept(r, w, use, walletSigns, now), MakeHandle(r, w, use, walletSigns, now), BasePlan(r, w, now);
    AcceptIsAccepted(r, w, use, walletSigns, now);
    AcceptIsChecked(r, w, use, walletSigns, now);
    hide Accept, MakeHandle, Refused;
    RestoredIsBase(r, s, h, base, later);
    UndoReversesAccepted(r, s, h, base, later);
  }

  /** Well-bracketed calls: each admitted call is undone after the calls nested inside it were. */
  datatype Nest = Done | Call(wallet: Address, use: ContextUse, walletSigns: bool, now: Millis, inner: Nest, rest: Nest)

  ghost function RunNest(r: Registry, n: Nest): (s: Registry)
    requires Wired(r)
    ensures Wired(s) && |s.handles| >= |r.handles|
    decreases n
  {
    match n
    case Done => r
    case Call(w, use, signs, now, inner, rest) =>
      var a := Admit(r, w, use, signs, now);
      match a.outcome
      case Failure(_) => RunNest(a.after, rest)
      case Success(h) => RunNest(Undo(RunNest(a.after, inner), h), rest)
  }

  /** Every call is made between `from` and `to`. */
  predicate Within(n: Nest, from: Millis, to: Millis) {
    match n
    case Done => true
    case Call(_, _, _, now, inner, rest) => from <= now <= to && Within(inner, from, to) && Within(rest, from, to)
  }

  ghost predicate NoneStale(r: Registry, now: Millis)
    requires Wired(r)
  {
    forall w :: w in r.live ==> !Stale(r.plans[r.live[w]], now)
  }

  lemma SweepIdle(r: Registry, now: Millis, to: Millis)
    requires Wired(r) && NoneStale(r, to) && now <= to
    ensures Sweep(r, now) == r
  {
    assert Sweep(r, now).live == r.live;
  }

  lemma AcceptNotStale(r: Registry, w: Address, use: ContextUse, walletSigns: bool, now: Millis, to: Millis)
    requires Wired(r) && NoneStale(r, to) && to - now <= PLAN_TTL_MS
    ensures NoneStale(Accept(r, w, use, walletSigns, now), to)
  {
  }

  lemma ExtensionNotStale(r: Registry, s: Registry, to: Millis)
    requires Wired(r) && Wired(s) && Extends(s, r) && NoneStale(r, to)
    ensures NoneStale(s, to)
  {
  }

  /** Nested admissions of any wallets, undone in reverse order before anything expires, leave every
      live plan, and everything remembered about earlier calls, exactly as it was. */
  lemma {:induction false} NestedUndosRestore(r: Registry, n: Nest, from: Millis, to: Millis)
    requires Inv(r) && Within(n, from, to) && to - from <= PLAN_TTL_MS && NoneStale(r, to)
    ensures Inv(RunNest(r, n)) && Extends(RunNest(r, n), r)
    decreases n
  {
    match n
    case Done =>
    case Call(w, use, signs, now, inner, rest) =>
      SweepIdle(r, now, to);
      RunNestCall(r, w, use, signs, now, inner, rest);
      if Refused(r, w, use, signs) == None {
        AcceptInv(r, w, use, signs, now);
        AcceptNotStale(r, w, use, signs, now, to);
        var s := Accept(r, w, use, signs, now);
        NestedUndosRestore(s, inner, from, to);
        NestedCall(r, w, use, signs, now, RunNest(s, inner), to);
        var t := Undo(RunNest(s, inner), |r.handles|);
        NestedUndosRestore(t, rest, from, to);
        ExtendsTransitive(RunNest(t, rest), t, r);
      } else {
        NestedUndosRestore(r, rest, from, to);
      }
  }

  lemma RunNestCall(r: Registry, w: Address, use: ContextUse, walletSigns: bool, now: Millis, inner: Nest, rest: Nest)
    requires Wired(r) && Sweep(r, now) == r
    ensures var n := Call(w, use, walletSigns, now, inner, rest);
            if Refused(r, w, use, walletSigns) == None
            then |r.handles| < |RunNest(Accept(r, w, use, walletSigns, now), inner).handles|
                 && RunNest(r, n)
                   == RunNest(Undo(RunNest(Accept(r, w, use, walletSigns, now), inner), |r.handles|), rest)
            else RunNest(r, n) == RunNest(r, rest)
  {
  }

  lemma ExtendsTransitive(a: Registry, b: Registry, c: Registry)
    requires Extends(a, b) && Extends(b, c)
    ensures Extends(a, c)
  {
  }

  lemma NestedCall(r: Registry, w: Address, use: ContextUse, walletSigns: bool, now: Millis, mid: Registry, to: Millis)
    requires Inv(r) && Refused(r, w, use, walletSigns) == None && NoneStale(r, to)
    requires Inv(mid) && Extends(mid, Accept(r, w, use, walletSigns, now))
    ensures |r.handles| < |mid.handles|
    ensures Inv(Undo(mid, |r.handles|)) && Extends(Undo(mid, |r.handles|), r) && NoneStale(Undo(mid, |r.handles|), to)
  {
    UndoReverses(r, w, use, walletSigns, now, mid);
    UndoInv(mid, |r.handles|);
    ExtensionNotStale(r, Undo(mid, |r.handles|), to);
  }

  /** `admit` followed at once by its undo restores the swept registry. */
  lemma AdmitThenUndo(es: seq<Event>, w: Address, use: ContextUse, walletSigns: bool, now: Millis)
    ensures var r := Run(EMPTY, es);
            var a := Admit(r, w, use, walletSigns, now);
            match a.outcome
            case Failure(_) => a.after == Sweep(r, now)
            case Success(h) => Extends(Undo(a.after, h), Sweep(r, now))
  {
    RunInv(es);
    var r := Run(EMPTY, es);
    SweepInv(r, now);
    AdmitInv(r, w, use, walletSigns, now);
    var a := Admit(r, w, use, walletSigns, now);
    if a.outcome.Success? {
      UndoReverses(Sweep(r, now), w, use, walletSigns, now, a.after);
    }
  }

  /** A second undo does nothing, and no undo changes another wallet's plan. */
  lemma UndoIsOnceAndLocal(es: seq<Event>, i: nat, v: Address)
    requires i < |Run(EMPTY, es).handles|
    ensures var r := Run(EMPTY, es);
            var s := Undo(r, i);
            && Undo(s, i) == s
            && (v != r.handles[i].wallet ==>
                 && (v in s.live <==> v in r.live)
                 && (v in r.live ==> s.live[v] == r.live[v] && s.plans[s.live[v]] == r.plans[r.live[v]]))
  {
    RunInv(es);
  }
}
