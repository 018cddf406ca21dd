/** An undo keeps the registry's invariant, whenever and however often it runs. */
module RentPlanUndo {
  import opened Basics
  import opened RentPlan

  /** How an undo that finds its plan takes `r` to `s`; `p` is what the plan becomes. */
  ghost predicate Reversed(r: Registry, s: Registry, i: nat, p: Plan) {
    && Wired(r) && Wired(s) && i < |r.handles| && Effective(r, i)
    && var h := r.handles[i];
       var was := r.plans[h.plan];
    && p.wallet == was.wallet
    && (forall c :: c in p.contexts ==> c in was.contexts || (c in h.spent && !OwnedByOther(r, h.wallet, c)))
    && p.preparations == (if h.preparing && was.preparations > 0 then was.preparations - 1 else was.preparations)
    && s.plans == r.plans[h.plan := p]
    && s.handles == r.handles[i := h.(undone := true, reversed := true)]
    && s.live == (if p.contexts == {} && p.preparations == 0 then r.live - {h.wallet} else r.live[h.wallet := h.plan])
  }

  lemma UndoIsReversed(r: Registry, i: nat)
    requires Wired(r) && i < |r.handles| && Effective(r, i)
    ensures Reversed(r, Undo(r, i), i, Restored(r, i))
  {
  }

  /** The guard `live.preparations > 0` never stops an undo of a preparing call. */
  lemma UndoGuardPasses(r: Registry, i: nat)
    requires Wired(r) && Detached(r) && Accounted(r) && i < |r.handles| && Effective(r, i) && r.handles[i].preparing
    ensures r.plans[r.handles[i].plan].preparations > 0
  {
    var h := r.handles[i];
    OutstandingUpdate(r.handles, i, h.(preparing := false), h.plan);
  }

  lemma OwnsAfterReversal(r: Registry, s: Registry, i: nat, p: Plan, v: Address, c: Address)
    requires Reversed(r, s, i, p) && PlansOwned(r) && Detached(r)
    ensures var w := r.handles[i].wallet;
            if v != w then Owns(s, v, c) <==> Owns(r, v, c)
            else Owns(s, w, c) ==> Owns(r, w, c) || !OwnedByOther(r, w, c)
  {
    var h := r.handles[i];
    assert v != h.wallet && v in r.live ==> r.live[v] != h.plan;
  }

  lemma ReversedOwned(r: Registry, s: Registry, i: nat, p: Plan)
    requires Reversed(r, s, i, p) && PlansOwned(r) && Detached(r) && Disjoint(r)
    ensures PlansOwned(s) && Disjoint(s)
  {
    forall u, v, c | Owns(s, u, c) && Owns(s, v, c) ensures u == v {
      OwnsAfterReversal(r, s, i, p, u, c);
      OwnsAfterReversal(r, s, i, p, v, c);
    }
  }

  lemma ReversedDetached(r: Registry, s: Registry, i: nat, p: Plan)
    requires Reversed(r, s, i, p) && PlansOwned(r) && Detached(r)
    ensures Detached(s)
  {
    forall j | 0 <= j < |s.handles| && CanPutBack(s.handles[j])
      ensures j != i && s.handles[j] == r.handles[j] && s.handles[j].plan != r.handles[i].plan
    {
    }
  }

  lemma ReversedAccounted(r: Registry, s: Registry, i: nat, p: Plan)
    requires Reversed(r, s, i, p) && PlansOwned(r) && Detached(r) && Accounted(r)
    ensures Accounted(s)
  {
    var h := r.handles[i];
    if h.preparing {
      UndoGuardPasses(r, i);
    }
    forall q | 0 <= q < |s.plans|
      ensures s.plans[q].preparations == Outstanding(s.handles, q) <= MAX_PREPARATION_TXS
    {
      OutstandingUpdate(r.handles, i, s.handles[i], q);
    }
    forall w | w in s.live
      ensures s.plans[s.live[w]].preparations > 0 || s.plans[s.live[w]].contexts != {}
    {
      assert w != h.wallet ==> w in r.live && s.live[w] == r.live[w] && s.live[w] != h.plan;
    }
  }

  lemma CreatedByKept(hs: seq<Handle>, i: nat, h: Handle, w: Address, c: Address)
    requires i < |hs| && h.wallet == hs[i].wallet && h.created == hs[i].created
    requires CreatedBy(hs, |hs|, w, c)
    ensures CreatedBy(hs[i := h], |hs|, w, c)
  {
    var j :| 0 <= j < |hs| && hs[j].wallet == w && c in hs[j].created;
    assert hs[i := h][j].wallet == w && c in hs[i := h][j].created;
  }

  lemma ReversedProvenance(r: Registry, s: Registry, i: nat, p: Plan)
    requires Reversed(r, s, i, p) && PlansOwned(r) && Provenance(r)
    ensures Provenance(s)
  {
    var n := |r.handles|;
    forall w, c | CreatedBy(r.handles, n, w, c) ensures CreatedBy(s.handles, n, w, c) {
      CreatedByKept(r.handles, i, s.handles[i], w, c);
    }
    forall q, c | 0 <= q < |s.plans| && c in s.plans[q].contexts
      ensures CreatedBy(s.handles, n, s.plans[q].wallet, c)
    {
    }
    forall j, c | 0 <= j < |s.handles| && c in s.handles[j].spent
      ensures CreatedBy(s.handles, n, s.handles[j].wallet, c)
    {
    }
  }

  lemma PutBackUpdated(hs: seq<Handle>, i: nat, h: Handle, p: nat)
    requires i < |hs| && h.plan == hs[i].plan && h.removedPlan == hs[i].removedPlan && (hs[i].reversed ==> h.reversed)
    ensures PutBack(hs, p) ==> PutBack(hs[i := h], p)
    ensures h.removedPlan && h.reversed ==> PutBack(hs[i := h], h.plan)
    ensures h == hs[i].(undone := h.undone) ==> (PutBack(hs[i := h], p) <==> PutBack(hs, p))
  {
    var t := hs[i := h];
    if j :| 0 <= j < |hs| && hs[j].plan == p && hs[j].removedPlan && hs[j].reversed {
      assert t[j].plan == p && t[j].removedPlan && t[j].reversed;
    }
    if j :| 0 <= j < |t| && t[j].plan == p && t[j].removedPlan && t[j].reversed {
      assert h == hs[i].(undone := h.undone) ==> hs[j].plan == p && hs[j].removedPlan && hs[j].reversed;
    }
    assert t[i] == h;
  }

  /** An undo changes no other wallet's plan, and where there was none it can only put a removed one back. */
  lemma ReversedBounded(r: Registry, s: Registry, i: nat, p: Plan)
    requires Reversed(r, s, i, p) && Detached(r) && Bounded(r)
    ensures Bounded(s)
  {
    forall w | w in NotPutBack(s) ensures w in NotPutBack(r) {
      PutBackUpdated(r.handles, i, s.handles[i], s.live[w]);
    }
    CardinalityMonotone(NotPutBack(s), NotPutBack(r));
  }

  lemma IdleUndoAccounted(r: Registry, s: Registry, i: nat)
    requires Wired(r) && Wired(s) && i < |r.handles| && Accounted(r) && Bounded(r)
    requires s == r.(handles := r.handles[i := r.handles[i].(undone := true)])
    ensures Accounted(s) && Bounded(s)
  {
    forall p | 0 <= p < |s.plans| ensures Outstanding(s.handles, p) == Outstanding(r.handles, p) {
      OutstandingUpdate(r.handles, i, s.handles[i], p);
    }
    forall w | w in s.live ensures PutBack(s.handles, s.live[w]) <==> PutBack(r.handles, r.live[w]) {
      PutBackUpdated(r.handles, i, s.handles[i], s.live[w]);
    }
    assert NotPutBack(s) == NotPutBack(r);
  }

  lemma IdleUndoProvenance(r: Registry, s: Registry, i: nat)
    requires Wired(r) && Wired(s) && i < |r.handles| && PlansOwned(r) && Provenance(r)
    requires s == r.(handles := r.handles[i := r.handles[i].(undone := true)])
    ensures PlansOwned(s) && Provenance(s)
  {
    forall w, c | CreatedBy(r.handles, |r.handles|, w, c) ensures CreatedBy(s.handles, |s.handles|, w, c) {
      CreatedByKept(r.handles, i, s.handles[i], w, c);
    }
  }

  /** An undo that no longer finds its plan only marks its handle as run. */
  lemma IdleUndoInv(r: Registry, s: Registry, i: nat)
    requires Inv(r) && i < |r.handles| && !r.handles[i].undone
    requires s == r.(handles := r.handles[i := r.handles[i].(undone := true)])
    ensures Inv(s)
  {
    assert Wired(s) && Detached(s);
    assert Disjoint(s) by {
      assert forall w, c :: Owns(s, w, c) ==> Owns(r, w, c);
    }
    IdleUndoAccounted(r, s, i);
    IdleUndoProvenance(r, s, i);
  }

  lemma EffectiveUndoInv(r: Registry, i: nat)
    requires Inv(r) && i < |r.handles| && Effective(r, i)
    ensures Inv(Undo(r, i))
  {
    var s, p := Undo(r, i), Restored(r, i);
    UndoIsReversed(r, i);
    hide Undo, Restored, Reversed, Effective, Wired, PlansOwned, Disjoint, Detached, Accounted, Provenance, Bounded;
    ReversedOwned(r, s, i, p);
    ReversedDetached(r, s, i, p);
    ReversedAccounted(r, s, i, p);
    ReversedProvenance(r, s, i, p);
    ReversedBounded(r, s, i, p);
  }

  lemma UndoInv(r: Registry, i: nat)
    requires Inv(r) && i < |r.handles|
    ensures Inv(Undo(r, i))
  {
    if Effective(r, i) {
      EffectiveUndoInv(r, i);
    } else if !r.handles[i].undone {
      IdleUndoInv(r, Undo(r, i), i);
    }
  }
}
