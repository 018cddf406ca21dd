/** Which contexts a transaction uses (`contextUse`, backend/src/rentplan.ts), and that nothing else
    changes when it is executed: what the registry is told is all there is. */
module ContextUses {
  import opened Basics
  import opened Transactions
  import opened RentShape
  import RP = RentPlan
  import Runs = RentPlanRuns
  import opened ContextLedger

  /** `c` is created, verified into or closed, or closed, by some instruction. */
  predicate Creates(tx: Transaction, c: Address) {
    exists i :: 0 <= i < |tx| && tx[i].program == SYSTEM_PROGRAM && tx[i].At(1) == Some(c)
  }

  predicate Touches(tx: Transaction, c: Address) {
    exists i :: 0 <= i < |tx| && tx[i].program == ZK_ELGAMAL_PROOF_PROGRAM && tx[i].At(0) == Some(c)
  }

  lemma UsesLast(tx: Transaction, ix: Instruction, c: Address)
    ensures Creates(tx + [ix], c) <==> Creates(tx, c) || (ix.program == SYSTEM_PROGRAM && ix.At(1) == Some(c))
    ensures Touches(tx + [ix], c) <==> Touches(tx, c) || (ix.program == ZK_ELGAMAL_PROOF_PROGRAM && ix.At(0) == Some(c))
    ensures Closes(tx + [ix], c) <==>
      Closes(tx, c) || (ix.program == ZK_ELGAMAL_PROOF_PROGRAM && ix.Tagged(ZK_CLOSE) && ix.At(0) == Some(c))
  {
    var s := tx + [ix];
    assert s[|tx|] == ix;
    assert forall i :: 0 <= i < |tx| ==> s[i] == tx[i];
  }

  /** The lists name exactly the contexts the transaction uses. */
  ghost predicate Lists(use: RP.ContextUse, tx: Transaction) {
    && (forall c :: c in use.created <==> Creates(tx, c))
    && (forall c :: c in use.touched <==> Touches(tx, c))
    && (forall c :: c in use.closed <==> Closes(tx, c))
  }

  method ContextUse(tx: Transaction) returns (use: RP.ContextUse)
    ensures Lists(use, tx)
  {
    var created: seq<Address>, touched: seq<Address>, closed: seq<Address> := [], [], [];
    for i := 0 to |tx|
      invariant forall c :: c in created <==> Creates(tx[..i], c)
      invariant forall c :: c in touched <==> Touches(tx[..i], c)
      invariant forall c :: c in closed <==> Closes(tx[..i], c)
    {
      var ix := tx[i];
      assert tx[..i + 1] == tx[..i] + [ix];
      forall c {
        UsesLast(tx[..i], ix, c);
      }
      hide Creates, Touches, Closes;
      if ix.program == SYSTEM_PROGRAM {
        if ix.At(1).Some? {
          created := created + [ix.At(1).value];
        }
      } else if ix.program == ZK_ELGAMAL_PROOF_PROGRAM {
        if ix.At(0).Some? {
          touched := touched + [ix.At(0).value];
          if ix.Tagged(0) {
            closed := closed + [ix.At(0).value];
          }
        }
      }
    }
    assert tx[..|tx|] == tx;
    return RP.ContextUse(created, touched, closed);
  }

  /** `c` has the same context, or none, in both ledgers. */
  predicate SameContext(s: Ledger, t: Ledger, c: Address) {
    (c in s.contexts <==> c in t.contexts) && (c in s.contexts ==> s.contexts[c] == t.contexts[c])
  }

  /** Executing a transaction changes no context but those it is registered as using. */
  lemma {:induction false} OnlyUsedContextsChange(s: Ledger, tx: Transaction, c: Address)
    requires ExecuteAll(s, tx).Some? && !Creates(tx, c) && !Touches(tx, c)
    ensures SameContext(s, ExecuteAll(s, tx).value, c)
    decreases tx
  {
    if tx != [] {
      var t := Execute(s, tx[0]).value;
      assert SameContext(s, t, c);
      assert forall i :: 0 <= i < |tx[1..]| ==> tx[1..][i] == tx[i + 1];
      OnlyUsedContextsChange(t, tx[1..], c);
    }
  }

  /** A context that is gone after a transaction that found it, was closed by it. */
  lemma {:induction false} GoneMeansClosed(s: Ledger, tx: Transaction, c: Address)
    requires ExecuteAll(s, tx).Some? && c in s.contexts && c !in ExecuteAll(s, tx).value.contexts
    ensures Closes(tx, c)
    decreases tx
  {
    var t := Execute(s, tx[0]).value;
    assert forall i :: 0 <= i < |tx[1..]| ==> tx[1..][i] == tx[i + 1];
    if c in t.contexts {
      GoneMeansClosed(t, tx[1..], c);
    }
  }

  // ---- the registry and the ledger together ----

  /** What an admitted call uses belongs to nobody else. */
  lemma UsesNobodyElses(r: RP.Registry, w: Address, use: RP.ContextUse, walletSigns: bool, v: Address, c: Address)
    requires RP.Wired(r) && RP.Disjoint(r) && RP.Refused(r, w, use, walletSigns) == None && v != w && RP.Owns(r, v, c)
    ensures c !in use.created && c !in use.touched
  {
    assert RP.Owned(r, c);
  }

  lemma OwnsBeforeAdmission(r: RP.Registry, w: Address, use: RP.ContextUse, walletSigns: bool, now: Millis, v: Address,
                            c: Address)
    requires RP.Inv(r) && RP.Admit(r, w, use, walletSigns, now).outcome.Success?
    requires v != w && RP.Owns(RP.Admit(r, w, use, walletSigns, now).after, v, c)
    ensures RP.Wired(RP.Sweep(r, now)) && RP.Disjoint(RP.Sweep(r, now))
    ensures RP.Refused(RP.Sweep(r, now), w, use, walletSigns) == None && RP.Owns(RP.Sweep(r, now), v, c)
  {
    var t := RP.Sweep(r, now);
    RP.SweepInv(r, now);
    RP.AcceptIsAccepted(t, w, use, walletSigns, now);
    var h := RP.MakeHandle(t, w, use, walletSigns, now);
    assert h.wallet == w;
    hide RP.Sweep, RP.Refused, RP.Accept, RP.MakeHandle, RP.BasePlan, RP.Accepted, RP.Owns, RP.Disjoint;
    RP.OwnsAfter(t, RP.Accept(t, w, use, walletSigns, now), h, RP.BasePlan(t, w, now), v, c);
  }

  /** In every reachable registry: once a transaction of wallet `w` is admitted, executing it on any ledger changes
      no context that is registered to another wallet. */
  lemma OthersContextsStay(es: seq<Runs.Event>, w: Address, tx: Transaction, use: RP.ContextUse, walletSigns: bool,
                           now: Millis, s: Ledger, v: Address, c: Address)
    requires Lists(use, tx) && ExecuteAll(s, tx).Some?
    requires RP.Admit(Runs.Run(RP.EMPTY, es), w, use, walletSigns, now).outcome.Success?
    requires v != w && RP.Owns(RP.Admit(Runs.Run(RP.EMPTY, es), w, use, walletSigns, now).after, v, c)
    ensures SameContext(s, ExecuteAll(s, tx).value, c)
  {
    var r := Runs.Run(RP.EMPTY, es);
    Runs.RunInv(es);
    hide RP.Inv, RP.Admit, RP.Sweep, RP.Refused, RP.Owns, RP.Disjoint, ExecuteAll, Creates, Touches, SameContext;
    OwnsBeforeAdmission(r, w, use, walletSigns, now, v, c);
    UsesNobodyElses(RP.Sweep(r, now), w, use, walletSigns, v, c);
    OnlyUsedContextsChange(s, tx, c);
  }
}
