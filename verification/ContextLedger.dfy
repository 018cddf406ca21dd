/** What accepted rent-payment transactions can cost the treasury.

    The file header of backend/src/rentshape.ts (lines 19-55) says what the instructions do and states the
    bound as a residual risk. Here they are executed on a ledger of the treasury's lamports and the proof
    program's context accounts, with anyone else free to act in between, and the bound is proved. */
module ContextLedger {
  import opened Basics
  import opened Sums
  import opened Transactions
  import opened RentShape

  /** A context-state account. Its authority is recorded when a proof is verified into it. */
  datatype Context = Context(lamports: nat, space: nat, authority: Option<Address>)

  datatype Ledger = Ledger(treasury: nat, contexts: map<Address, Context>)

  /** One instruction of an accepted transaction; None when it fails. Instructions of the other allowed
      programs name neither the treasury nor a context as an account they could debit. Whether a proof
      is sound is left open: an unsound one fails, and the transaction with it. */
  function Execute(s: Ledger, ix: Instruction): Option<Ledger> {
    if ix.program == SYSTEM_PROGRAM then
      if !IsCreate(ix) || CreateOf(ix).target in s.contexts || CreateOf(ix).lamports > s.treasury then None
      else Some(Ledger(s.treasury - CreateOf(ix).lamports,
                       s.contexts[CreateOf(ix).target := Context(CreateOf(ix).lamports, CreateOf(ix).space, None)]))
    else if ix.program == ZK_ELGAMAL_PROOF_PROGRAM && |ix.data| > 0 && |ix.accounts| > 0 then
      var c := ix.accounts[0].address;
      if c !in s.contexts then None
      else if ix.data[0] == ZK_CLOSE then
        if |ix.accounts| != 3 || s.contexts[c].authority != ix.At(2) then None
        else Some(Ledger(s.treasury + s.contexts[c].lamports, s.contexts - {c}))
      else if |ix.accounts| != 2 || s.contexts[c].authority.Some? then None
      else Some(s.(contexts := s.contexts[c := s.contexts[c].(authority := ix.At(1))]))
    else if ix.program == ZK_ELGAMAL_PROOF_PROGRAM then None
    else Some(s)
  }

  /** A transaction takes effect whole or not at all. */
  function ExecuteAll(s: Ledger, tx: Transaction): Option<Ledger>
    decreases tx
  {
    if tx == [] then Some(s)
    else match Execute(s, tx[0])
      case None => None
      case Some(t) => ExecuteAll(t, tx[1..])
  }

  /** A create with no proof for the new account later in the same transaction. */
  predicate IsBare(tx: Transaction, i: nat)
    requires i < |tx|
  {
    IsCreate(tx[i]) && !InitialisedAfter(tx, i, CreateOf(tx[i]).target)
  }

  function BareCreates(tx: Transaction): nat {
    if tx == [] then 0 else (if IsBare(tx, 0) then 1 else 0) + BareCreates(tx[1..])
  }

  /** A context whose rent the treasury can still claim, or that the rest of the transaction will make so. */
  ghost predicate Counted(c: Address, context: Context, treasury: Address, rest: Transaction) {
    || context.authority == Some(treasury)
    || (context.authority == None && exists j :: 0 <= j < |rest| && Initialises(rest[j], c))
  }

  ghost function Claims(s: Ledger, treasury: Address, rest: Transaction): map<Address, nat> {
    map c | c in s.contexts && Counted(c, s.contexts[c], treasury, rest) :: s.contexts[c].lamports
  }

  ghost function Value(s: Ledger, treasury: Address, rest: Transaction): nat {
    s.treasury + Total(Claims(s, treasury, rest))
  }

  /** The treasury's lamports and those in contexts under its authority. */
  ghost function Secured(s: Ledger, treasury: Address): nat {
    Value(s, treasury, [])
  }

  /** Each instruction of a suffix of an accepted transaction is what the filter lets through. */
  ghost predicate SuffixAllowed(tx: Transaction, rules: Rules) {
    forall i :: 0 <= i < |tx| ==>
      if tx[i].program == SYSTEM_PROGRAM then CreateAllowed(tx[i], rules)
        && (IsBare(tx, i) ==> IsRangeContext(tx[i], rules))
      else tx[i].program == ZK_ELGAMAL_PROOF_PROGRAM ==> VerifyAllowed(tx[i], rules) || CloseAllowed(tx[i], rules)
  }

  lemma AllowedIsSuffixAllowed(tx: Transaction, rules: Rules)
    requires Allowed(tx, rules)
    ensures SuffixAllowed(tx, rules)
  {
    forall i | 0 <= i < |tx|
      ensures if tx[i].program == SYSTEM_PROGRAM then CreateAllowed(tx[i], rules)
        && (IsBare(tx, i) ==> IsRangeContext(tx[i], rules))
              else tx[i].program == ZK_ELGAMAL_PROOF_PROGRAM ==>
                VerifyAllowed(tx[i], rules) || CloseAllowed(tx[i], rules)
    {
      assert InstructionAllowed(tx, i, rules);
    }
  }

  lemma SuffixTail(tx: Transaction, rules: Rules)
    requires SuffixAllowed(tx, rules) && tx != []
    ensures SuffixAllowed(tx[1..], rules)
  {
    forall i | 0 <= i < |tx[1..]|
      ensures IsCreate(tx[1..][i]) ==> (IsBare(tx[1..], i) <==> IsBare(tx, i + 1))
    {
      if IsCreate(tx[i + 1]) {
        var c := CreateOf(tx[i + 1]).target;
        assert forall j :: i < j < |tx[1..]| ==> tx[1..][j] == tx[j + 1];
        if InitialisedAfter(tx, i + 1, c) {
          var j :| i + 1 < j < |tx| && Initialises(tx[j], c);
          assert Initialises(tx[1..][j - 1], c);
        }
      }
    }
  }

  /** Which contexts the rest of the transaction still makes the treasury's, one instruction on. */
  lemma CountedTail(c: Address, context: Context, treasury: Address, tx: Transaction)
    requires tx != []
    ensures Counted(c, context, treasury, tx) <==>
            Counted(c, context, treasury, tx[1..]) || (context.authority == None && Initialises(tx[0], c))
  {
    if context.authority == None {
      if j :| 0 <= j < |tx| && Initialises(tx[j], c) {
        assert j > 0 ==> Initialises(tx[1..][j - 1], c);
      }
      if j :| 0 <= j < |tx[1..]| && Initialises(tx[1..][j], c) {
        assert Initialises(tx[j + 1], c);
      }
    }
  }

  lemma CreateValue(s: Ledger, t: Ledger, tx: Transaction, rules: Rules)
    requires tx != [] && tx[0].program == SYSTEM_PROGRAM && SuffixAllowed(tx, rules) && Execute(s, tx[0]) == Some(t)
    ensures Value(s, rules.treasury, tx)
         <= Value(t, rules.treasury, tx[1..]) + if IsBare(tx, 0) then rules.rangeContextLamports else 0
  {
    var c, lamports := CreateOf(tx[0]).target, CreateOf(tx[0]).lamports;
    var before, after := Claims(s, rules.treasury, tx), Claims(t, rules.treasury, tx[1..]);
    forall d | d in s.contexts
      ensures Counted(d, s.contexts[d], rules.treasury, tx) <==> Counted(d, s.contexts[d], rules.treasury, tx[1..])
    {
      CountedTail(d, s.contexts[d], rules.treasury, tx);
    }
    if IsBare(tx, 0) {
      assert after - {c} == before;
      TotalMonotone(before, after);
    } else {
      var j :| 0 < j < |tx| && Initialises(tx[j], c);
      assert Initialises(tx[1..][j - 1], c);
      assert after == before[c := lamports];
      assert before - {c} == before;
      TotalUpdate(before, c, lamports);
    }
  }

  lemma ProofValue(s: Ledger, t: Ledger, tx: Transaction, rules: Rules)
    requires tx != [] && tx[0].program == ZK_ELGAMAL_PROOF_PROGRAM && SuffixAllowed(tx, rules)
      && Execute(s, tx[0]) == Some(t)
    ensures Value(s, rules.treasury, tx) <= Value(t, rules.treasury, tx[1..])
  {
    var c := tx[0].accounts[0].address;
    var before, after := Claims(s, rules.treasury, tx), Claims(t, rules.treasury, tx[1..]);
    forall d | d in s.contexts
      ensures Counted(d, s.contexts[d], rules.treasury, tx) <==>
              Counted(d, s.contexts[d], rules.treasury, tx[1..])
                || (s.contexts[d].authority == None && Initialises(tx[0], d))
    {
      CountedTail(d, s.contexts[d], rules.treasury, tx);
    }
    if CloseAllowed(tx[0], rules) {
      assert after == before - {c};
      assert before[c] == s.contexts[c].lamports;
      TotalSplit(before, c);
    } else {
      assert after == before;
    }
  }

  lemma OtherValue(s: Ledger, tx: Transaction, treasury: Address)
    requires tx != [] && tx[0].program != ZK_ELGAMAL_PROOF_PROGRAM
    ensures Value(s, treasury, tx) == Value(s, treasury, tx[1..])
  {
    forall d | d in s.contexts
      ensures Counted(d, s.contexts[d], treasury, tx) <==> Counted(d, s.contexts[d], treasury, tx[1..])
    {
      CountedTail(d, s.contexts[d], treasury, tx);
    }
    assert Claims(s, treasury, tx) == Claims(s, treasury, tx[1..]);
  }

  lemma StepValue(s: Ledger, t: Ledger, tx: Transaction, rules: Rules)
    requires tx != [] && SuffixAllowed(tx, rules) && Execute(s, tx[0]) == Some(t)
    ensures Value(s, rules.treasury, tx)
         <= Value(t, rules.treasury, tx[1..]) + if IsBare(tx, 0) then rules.rangeContextLamports else 0
  {
    hide Value, SuffixAllowed;
    if tx[0].program == SYSTEM_PROGRAM {
      CreateValue(s, t, tx, rules);
    } else if tx[0].program == ZK_ELGAMAL_PROOF_PROGRAM {
      ProofValue(s, t, tx, rules);
    } else {
      OtherValue(s, tx, rules.treasury);
    }
  }

  lemma {:induction false} ExecuteValue(s: Ledger, tx: Transaction, rules: Rules)
    requires SuffixAllowed(tx, rules) && ExecuteAll(s, tx).Some?
    ensures Value(s, rules.treasury, tx)
         <= Value(ExecuteAll(s, tx).value, rules.treasury, []) + BareCreates(tx) * rules.rangeContextLamports
    decreases tx
  {
    hide Value, SuffixAllowed, Execute, IsBare;
    if tx != [] {
      var t := Execute(s, tx[0]).value;
      StepValue(s, t, tx, rules);
      SuffixTail(tx, rules);
      ExecuteValue(t, tx[1..], rules);
      BareTimes(tx, rules.rangeContextLamports);
    }
  }

  lemma Distribute(a: nat, b: nat, c: nat)
    ensures (a + b) * c == a * c + b * c
  {
  }

  lemma BareTimes(tx: Transaction, lamports: nat)
    requires tx != []
    ensures BareCreates(tx) * lamports == (if IsBare(tx, 0) then lamports else 0) + BareCreates(tx[1..]) * lamports
  {
    var rest := BareCreates(tx[1..]);
    var first := if IsBare(tx, 0) then 1 else 0;
    assert BareCreates(tx) == first + rest;
    hide BareCreates, IsBare;
    Distribute(first, rest, lamports);
  }

  /** One accepted transaction lowers what the treasury has or can claim by at most the range context's
      rent for each bare create in it. */
  lemma TransactionCost(s: Ledger, tx: Transaction, rules: Rules)
    requires Allowed(tx, rules) && ExecuteAll(s, tx).Some?
    ensures Secured(s, rules.treasury)
         <= Secured(ExecuteAll(s, tx).value, rules.treasury) + BareCreates(tx) * rules.rangeContextLamports
  {
    AllowedIsSuffixAllowed(tx, rules);
    TotalMonotone(Claims(s, rules.treasury, []), Claims(s, rules.treasury, tx));
    ExecuteValue(s, tx, rules);
  }

  // ---- which contexts a transaction closes ----

  /** A proof-program instruction that closes account `c`. */
  predicate ClosesAccount(ix: Instruction, c: Address) {
    ix.program == ZK_ELGAMAL_PROOF_PROGRAM && ix.Tagged(ZK_CLOSE) && ix.At(0) == Some(c)
  }

  predicate Closes(tx: Transaction, c: Address) {
    exists i :: 0 <= i < |tx| && ClosesAccount(tx[i], c)
  }

  lemma ClosesFirst(tx: Transaction, c: Address)
    requires tx != []
    ensures Closes(tx, c) <==> ClosesAccount(tx[0], c) || Closes(tx[1..], c)
  {
    if i :| 0 <= i < |tx| && ClosesAccount(tx[i], c) {
      assert i > 0 ==> tx[1..][i - 1] == tx[i];
    }
    if i :| 0 <= i < |tx[1..]| && ClosesAccount(tx[1..][i], c) {
      assert tx[i + 1] == tx[1..][i];
    }
  }

  // ---- every other create ends with the treasury as authority, or closed back to it ----

  /** Account `c` is under the treasury's authority, or gone. */
  predicate Held(s: Ledger, c: Address, treasury: Address) {
    c in s.contexts ==> s.contexts[c].authority == Some(treasury)
  }

  predicate CreatedIn(tx: Transaction, c: Address) {
    exists j :: 0 <= j < |tx| && IsCreate(tx[j]) && CreateOf(tx[j]).target == c
  }

  lemma {:induction false} HeldStays(s: Ledger, tx: Transaction, rules: Rules, c: Address)
    requires SuffixAllowed(tx, rules) && ExecuteAll(s, tx).Some? && Held(s, c, rules.treasury)
    requires !CreatedIn(tx, c)
    decreases tx
    ensures Held(ExecuteAll(s, tx).value, c, rules.treasury)
  {
    if tx != [] {
      var t := Execute(s, tx[0]).value;
      assert Held(t, c, rules.treasury);
      SuffixTail(tx, rules);
      assert forall j :: 0 <= j < |tx[1..]| ==> tx[1..][j] == tx[j + 1];
      HeldStays(t, tx[1..], rules, c);
    }
  }

  lemma {:induction false} InitialisedBecomesHeld(s: Ledger, tx: Transaction, rules: Rules, c: Address, j: nat)
    requires SuffixAllowed(tx, rules) && ExecuteAll(s, tx).Some? && c in s.contexts
    requires j < |tx| && Initialises(tx[j], c) && !CreatedIn(tx, c)
    decreases tx
    ensures Held(ExecuteAll(s, tx).value, c, rules.treasury)
  {
    var t := Execute(s, tx[0]).value;
    SuffixTail(tx, rules);
    assert forall k :: 0 <= k < |tx[1..]| ==> tx[1..][k] == tx[k + 1];
    if j == 0 || c !in t.contexts {
      HeldStays(t, tx[1..], rules, c);
    } else {
      InitialisedBecomesHeld(t, tx[1..], rules, c, j - 1);
    }
  }

  /** The suffix of a transaction from instruction `i` on, executed from where the first `i` lead. */
  lemma {:induction false} ExecuteFrom(s: Ledger, tx: Transaction, rules: Rules, i: nat) returns (mid: Ledger)
    requires SuffixAllowed(tx, rules) && ExecuteAll(s, tx).Some? && i <= |tx|
    decreases i
    ensures SuffixAllowed(tx[i..], rules) && ExecuteAll(mid, tx[i..]) == ExecuteAll(s, tx)
  {
    if i == 0 {
      mid := s;
      assert tx[0..] == tx;
    } else {
      SuffixTail(tx, rules);
      mid := ExecuteFrom(Execute(s, tx[0]).value, tx[1..], rules, i - 1);
      assert tx[1..][i - 1..] == tx[i..];
    }
  }

  /** An account that is there can be created again only after it was closed. */
  lemma {:induction false} CreatedAgainWasClosed(s: Ledger, tx: Transaction, c: Address)
    requires ExecuteAll(s, tx).Some? && c in s.contexts && CreatedIn(tx, c)
    ensures Closes(tx, c)
    decreases tx
  {
    var t := Execute(s, tx[0]).value;
    var j :| 0 <= j < |tx| && IsCreate(tx[j]) && CreateOf(tx[j]).target == c;
    ClosesFirst(tx, c);
    if c in t.contexts {
      assert tx[1..][j - 1] == tx[j];
      CreatedAgainWasClosed(t, tx[1..], c);
    }
  }

  /** A context created with a proof beside it ends the transaction under the treasury's authority, or closed
      back to the treasury: it is there under another authority, or none, only if the transaction closed it and
      then created the account again. */
  lemma ProvedCreateIsHeld(s: Ledger, tx: Transaction, rules: Rules, i: nat)
    requires Allowed(tx, rules) && ExecuteAll(s, tx).Some?
    requires i < |tx| && IsCreate(tx[i]) && !IsBare(tx, i)
    ensures var c, rest := CreateOf(tx[i]).target, tx[i + 1..];
      Held(ExecuteAll(s, tx).value, c, rules.treasury) || (Closes(rest, c) && CreatedIn(rest, c))
  {
    hide *;
    AllowedIsSuffixAllowed(tx, rules);
    var mid := ExecuteFrom(s, tx, rules, i);
    var j := ProofOf(tx, i);
    assert tx[i..][0] == tx[i] && tx[i..][1..] == tx[i + 1..];
    FirstCreateIsHeld(mid, tx[i..], rules, j - i);
  }

  lemma ProofOf(tx: Transaction, i: nat) returns (j: nat)
    requires i < |tx| && IsCreate(tx[i]) && !IsBare(tx, i)
    ensures i < j < |tx| && Initialises(tx[j], CreateOf(tx[i]).target)
  {
    j :| i < j < |tx| && Initialises(tx[j], CreateOf(tx[i]).target);
  }

  lemma FirstCreateIsHeld(s: Ledger, tx: Transaction, rules: Rules, j: nat)
    requires SuffixAllowed(tx, rules) && ExecuteAll(s, tx).Some? && 0 < j < |tx|
    requires IsCreate(tx[0]) && Initialises(tx[j], CreateOf(tx[0]).target)
    ensures var c, rest := CreateOf(tx[0]).target, tx[1..];
      Held(ExecuteAll(s, tx).value, c, rules.treasury) || (Closes(rest, c) && CreatedIn(rest, c))
  {
    var c := CreateOf(tx[0]).target;
    var t := Execute(s, tx[0]).value;
    assert c in t.contexts;
    SuffixTail(tx, rules);
    hide Execute, SuffixAllowed, Initialises, CreatedIn, Closes;
    if CreatedIn(tx[1..], c) {
      CreatedAgainWasClosed(t, tx[1..], c);
    } else {
      InitialisedBecomesHeld(t, tx[1..], rules, c, j - 1);
    }
  }
}
