/** What one transaction takes out of the treasury: what it creates costs, and what it closes brings in. */
module ContextDebits {
  import opened Basics
  import opened Transactions
  import opened RentShape
  import opened ContextLedger

  /** The lamports an instruction brings in by closing a context. */
  function Refund(s: Ledger, ix: Instruction): nat {
    if ix.program == ZK_ELGAMAL_PROOF_PROGRAM && ix.Tagged(ZK_CLOSE) && |ix.accounts| > 0
       && ix.accounts[0].address in s.contexts
    then s.contexts[ix.accounts[0].address].lamports
    else 0
  }

  /** What a transaction that takes effect brings in by closing contexts. */
  function Refunds(s: Ledger, tx: Transaction): nat
    decreases tx
  {
    if tx == [] then 0
    else match Execute(s, tx[0])
      case None => 0
      case Some(t) => Refund(s, tx[0]) + Refunds(t, tx[1..])
  }

  /** The rent of an instruction's new account, if it creates one. */
  function RentOf(ix: Instruction): nat {
    if IsCreate(ix) then CreateOf(ix).lamports else 0
  }

  /** The rent of all the accounts a transaction creates, and of those it creates with a proof beside them. */
  function Rent(tx: Transaction): nat {
    if tx == [] then 0 else RentOf(tx[0]) + Rent(tx[1..])
  }

  function ProvedRent(tx: Transaction): nat {
    if tx == [] then 0 else (if IsBare(tx, 0) then 0 else RentOf(tx[0])) + ProvedRent(tx[1..])
  }

  lemma StepDebit(s: Ledger, ix: Instruction)
    requires Execute(s, ix).Some?
    ensures s.treasury - Execute(s, ix).value.treasury == RentOf(ix) - Refund(s, ix)
  {
    hide CreateOf;
  }

  /** What a transaction takes out of the treasury is the rent of what it creates less what it closes brings in. */
  lemma {:induction false} Debit(s: Ledger, tx: Transaction)
    requires ExecuteAll(s, tx).Some?
    ensures s.treasury - ExecuteAll(s, tx).value.treasury == Rent(tx) - Refunds(s, tx)
    decreases tx
  {
    if tx != [] {
      StepDebit(s, tx[0]);
      hide Execute, Refund, RentOf;
      Debit(Execute(s, tx[0]).value, tx[1..]);
    }
  }

  /** In an accepted transaction that rent is the range context's for each bare create, and that of the others. */
  lemma {:induction false} RentSplit(tx: Transaction, rules: Rules)
    requires SuffixAllowed(tx, rules)
    ensures Rent(tx) == BareCreates(tx) * rules.rangeContextLamports + ProvedRent(tx)
    decreases tx
  {
    if tx != [] {
      assert IsBare(tx, 0) ==> RentOf(tx[0]) == rules.rangeContextLamports;
      SuffixTail(tx, rules);
      hide SuffixAllowed, IsBare, RentOf, BareCreates;
      RentSplit(tx[1..], rules);
      BareTimes(tx, rules.rangeContextLamports);
    }
  }

  /** What an accepted transaction can lose, in range contexts created without a proof, beyond what the treasury's
      balance falls by: as far as its closes bring in more than its other creates cost. */
  function Hidden(s: Ledger, tx: Transaction, rules: Rules): nat {
    Min(BareCreates(tx) * rules.rangeContextLamports, Max(Refunds(s, tx) - ProvedRent(tx), 0))
  }

  /** The balance's fall, or zero, and what is hidden make up the rent of the bare creates. Nothing is hidden exactly
      when no such rent is paid, or the closes bring in no more than the other creates cost. */
  lemma HiddenExactly(s: Ledger, tx: Transaction, rules: Rules)
    requires Allowed(tx, rules) && ExecuteAll(s, tx).Some?
    ensures var debit, bare := s.treasury - ExecuteAll(s, tx).value.treasury,
      BareCreates(tx) * rules.rangeContextLamports;
      && debit == bare + ProvedRent(tx) - Refunds(s, tx)
      && bare <= Max(debit, 0) + Hidden(s, tx, rules)
      && (bare <= Max(debit, 0) <==> Hidden(s, tx, rules) == 0)
      && (Hidden(s, tx, rules) == 0 <==> bare == 0 || Refunds(s, tx) <= ProvedRent(tx))
  {
    AllowedIsSuffixAllowed(tx, rules);
    hide ExecuteAll, Refunds, Rent, ProvedRent, BareCreates, Allowed, SuffixAllowed;
    Debit(s, tx);
    RentSplit(tx, rules);
  }

  /** A transaction that takes effect on two ledgers takes no more out of the treasury on the second exactly when
      what it closes there brings in no less. */
  lemma DebitNoLargerExactly(s: Ledger, t: Ledger, tx: Transaction)
    requires ExecuteAll(s, tx).Some? && ExecuteAll(t, tx).Some?
    ensures t.treasury - ExecuteAll(t, tx).value.treasury <= s.treasury - ExecuteAll(s, tx).value.treasury
            <==> Refunds(s, tx) <= Refunds(t, tx)
  {
    hide ExecuteAll, Refunds, Rent;
    Debit(s, tx);
    Debit(t, tx);
  }

  /** `t` has at least the lamports of `s` in every context of both that the transaction closes. */
  predicate HoldsNoLess(s: Ledger, t: Ledger, tx: Transaction) {
    forall c :: c in s.contexts && c in t.contexts && Closes(tx, c) ==>
      s.contexts[c].lamports <= t.contexts[c].lamports
  }

  lemma StepHoldsNoLess(s: Ledger, t: Ledger, tx: Transaction)
    requires tx != [] && HoldsNoLess(s, t, tx) && Execute(s, tx[0]).Some? && Execute(t, tx[0]).Some?
    ensures HoldsNoLess(Execute(s, tx[0]).value, Execute(t, tx[0]).value, tx[1..])
    ensures Refund(s, tx[0]) <= Refund(t, tx[0])
  {
    forall c ensures Closes(tx[1..], c) ==> Closes(tx, c) {
      ClosesFirst(tx, c);
    }
    assert |tx[0].accounts| > 0 && tx[0].program == ZK_ELGAMAL_PROOF_PROGRAM && tx[0].Tagged(ZK_CLOSE) ==>
      Closes(tx, tx[0].accounts[0].address);
  }

  /** So it does when each context it closes holds no less there. */
  lemma {:induction false} RefundsNoLess(s: Ledger, t: Ledger, tx: Transaction)
    requires ExecuteAll(s, tx).Some? && ExecuteAll(t, tx).Some? && HoldsNoLess(s, t, tx)
    ensures Refunds(s, tx) <= Refunds(t, tx)
    decreases tx
  {
    if tx != [] {
      StepHoldsNoLess(s, t, tx);
      hide Execute, HoldsNoLess, Refund;
      RefundsNoLess(Execute(s, tx[0]).value, Execute(t, tx[0]).value, tx[1..]);
    }
  }

  /** A context that has an authority stays as it is in a transaction that does not close it. */
  lemma {:induction false} UnclosedStays(s: Ledger, tx: Transaction, c: Address)
    requires ExecuteAll(s, tx).Some? && c in s.contexts && s.contexts[c].authority.Some? && !Closes(tx, c)
    ensures c in ExecuteAll(s, tx).value.contexts && ExecuteAll(s, tx).value.contexts[c] == s.contexts[c]
    decreases tx
  {
    if tx != [] {
      var t := Execute(s, tx[0]).value;
      ClosesFirst(tx, c);
      assert c in t.contexts && t.contexts[c] == s.contexts[c];
      UnclosedStays(t, tx[1..], c);
    }
  }
}
