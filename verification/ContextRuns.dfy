/** Runs of accepted transactions, with anyone else acting in between: what the treasury can lose over them. */
module ContextRuns {
  import opened Basics
  import opened Sums
  import opened Transactions
  import opened RentShape
  import opened ContextLedger
  import opened ContextDebits

  /** What anyone else can do between two of our transactions: not debit the treasury, and not touch a
      context under its authority except to pay lamports in. Everything else is theirs to change, any
      uninitialised context included. */
  ghost predicate OthersAct(s: Ledger, t: Ledger, treasury: Address) {
    && s.treasury <= t.treasury
    && forall c :: c in s.contexts && s.contexts[c].authority == Some(treasury) ==>
         c in t.contexts && t.contexts[c].authority == Some(treasury)
           && s.contexts[c].lamports <= t.contexts[c].lamports
  }

  /** Others act up to `before`; then `tx`, accepted under `rules`, lands: the treasury pays its fee, and it
      leads to `after` whole, or not at all. */
  datatype Landing = Landing(before: Ledger, tx: Transaction, rules: Rules, fee: nat, after: Ledger)

  function Charged(s: Ledger, fee: nat): Ledger
    requires fee <= s.treasury
  {
    s.(treasury := s.treasury - fee)
  }

  /** Beyond its fee. */
  predicate TakesEffect(l: Landing) {
    l.fee <= l.before.treasury && l.after != Charged(l.before, l.fee)
  }

  function End(start: Ledger, run: seq<Landing>): Ledger {
    if run == [] then start else run[|run| - 1].after
  }

  ghost predicate Run(start: Ledger, run: seq<Landing>, treasury: Address) {
    run == [] ||
    var earlier, l := run[..|run| - 1], run[|run| - 1];
    && Run(start, earlier, treasury)
    && OthersAct(End(start, earlier), l.before, treasury)
    && l.rules.treasury == treasury && Allowed(l.tx, l.rules) && l.fee <= l.before.treasury
    && (TakesEffect(l) ==> ExecuteAll(Charged(l.before, l.fee), l.tx) == Some(l.after))
  }

  /** The range context's rent, once for each bare create in a transaction of the run. */
  function Residual(run: seq<Landing>): nat {
    if run == [] then 0
    else var l := run[|run| - 1]; Residual(run[..|run| - 1]) + BareCreates(l.tx) * l.rules.rangeContextLamports
  }

  lemma OthersCannotTake(s: Ledger, t: Ledger, treasury: Address)
    requires OthersAct(s, t, treasury)
    ensures Secured(s, treasury) <= Secured(t, treasury)
  {
    TotalMonotone(Claims(s, treasury, []), Claims(t, treasury, []));
  }

  function Fees(run: seq<Landing>): nat {
    if run == [] then 0 else Fees(run[..|run| - 1]) + run[|run| - 1].fee
  }

  lemma ChargedSecured(s: Ledger, fee: nat, treasury: Address)
    requires fee <= s.treasury
    ensures Secured(Charged(s, fee), treasury) == Secured(s, treasury) - fee
  {
    assert Claims(Charged(s, fee), treasury, []) == Claims(s, treasury, []);
  }

  /** Over any run, the treasury's lamports together with what it can claim back from contexts fall by at
      most the fees, charged whether or not a transaction takes effect, and the range context's rent per
      bare create. */
  lemma {:induction false} TreasuryBound(start: Ledger, run: seq<Landing>, treasury: Address)
    requires Run(start, run, treasury)
    ensures Secured(start, treasury) <= Secured(End(start, run), treasury) + Residual(run) + Fees(run)
  {
    hide Secured, Allowed, OthersAct, ExecuteAll, Charged;
    if run != [] {
      var earlier, l := run[..|run| - 1], run[|run| - 1];
      TreasuryBound(start, earlier, treasury);
      OthersCannotTake(End(start, earlier), l.before, treasury);
      ChargedSecured(l.before, l.fee, treasury);
      if TakesEffect(l) {
        TransactionCost(Charged(l.before, l.fee), l.tx, l.rules);
      }
    }
  }

  lemma {:induction false} BareAreCreates(tx: Transaction, rules: Rules)
    requires SuffixAllowed(tx, rules)
    ensures BareCreates(tx) <= Calls(tx, SYSTEM_PROGRAM)
    decreases tx
  {
    if tx != [] {
      SuffixTail(tx, rules);
      BareAreCreates(tx[1..], rules);
      CallsFirst(tx, SYSTEM_PROGRAM);
    }
  }

  /** The bare creates of one accepted transaction are within the cap on creates. */
  lemma BareCreatesCapped(tx: Transaction, rules: Rules)
    requires Allowed(tx, rules)
    ensures BareCreates(tx) <= rules.maxCreateAccounts
  {
    AllowedIsSuffixAllowed(tx, rules);
    BareAreCreates(tx, rules);
    assert tx[..|tx|] == tx;
  }

  lemma ProductMonotone(a: nat, b: nat, c: nat)
    requires a <= b
    ensures a * c <= b * c
  {
  }

  /** So under fixed rules a run of any length costs the treasury, fees aside, at most the range context's rent
      for each create the rules let each transaction have. */
  lemma CostPerTransaction(start: Ledger, run: seq<Landing>, treasury: Address, rules: Rules)
    requires Run(start, run, treasury) && forall i :: 0 <= i < |run| ==> run[i].rules == rules
    ensures Secured(start, treasury)
      <= Secured(End(start, run), treasury) + Fees(run) + |run| * (rules.maxCreateAccounts * rules.rangeContextLamports)
  {
    TreasuryBound(start, run, treasury);
    ResidualCapped(start, run, treasury, rules);
    hide Secured, Run, Residual, Fees;
  }

  lemma {:induction false} ResidualCapped(start: Ledger, run: seq<Landing>, treasury: Address, rules: Rules)
    requires Run(start, run, treasury) && forall i :: 0 <= i < |run| ==> run[i].rules == rules
    ensures Residual(run) <= |run| * (rules.maxCreateAccounts * rules.rangeContextLamports)
  {
    hide Secured, Allowed, OthersAct, ExecuteAll, BareCreates;
    if run != [] {
      var n, l, each := |run| - 1, run[|run| - 1], rules.maxCreateAccounts * rules.rangeContextLamports;
      ResidualCapped(start, run[..n], treasury, rules);
      BareCreatesCapped(l.tx, rules);
      ProductMonotone(BareCreates(l.tx), rules.maxCreateAccounts, rules.rangeContextLamports);
      Distribute(n, 1, each);
    }
  }

  // ---- what stays under the authority of the treasury ----

  /** Context `c` is under the treasury's authority, with at least `lamports`. */
  predicate Keeps(s: Ledger, c: Address, treasury: Address, lamports: nat) {
    c in s.contexts && s.contexts[c].authority == Some(treasury) && lamports <= s.contexts[c].lamports
  }

  /** What a run says of its landing `n`. */
  lemma {:induction false} LandingOf(start: Ledger, run: seq<Landing>, treasury: Address, n: nat)
    requires Run(start, run, treasury) && n < |run|
    ensures Run(start, run[..n], treasury) && OthersAct(End(start, run[..n]), run[n].before, treasury)
    ensures run[n].rules.treasury == treasury && Allowed(run[n].tx, run[n].rules)
      && run[n].fee <= run[n].before.treasury
    ensures TakesEffect(run[n]) ==> ExecuteAll(Charged(run[n].before, run[n].fee), run[n].tx) == Some(run[n].after)
  {
    var last := |run| - 1;
    if n < last {
      LandingOf(start, run[..last], treasury, n);
      assert run[..last][..n] == run[..n];
    }
  }

  /** From a ledger between two landings on, a context under the treasury's authority keeps it and its lamports
      while no transaction that takes effect closes it. */
  lemma {:induction false} UnclosedKeeps(start: Ledger, run: seq<Landing>, treasury: Address, m: nat, n: nat, s: Ledger,
                                         c: Address, lamports: nat)
    requires Run(start, run, treasury) && m <= n < |run| && Keeps(s, c, treasury, lamports)
      && OthersAct(s, run[m].before, treasury)
    requires forall i :: m <= i < n && TakesEffect(run[i]) ==> !Closes(run[i].tx, c)
    ensures Keeps(run[n].before, c, treasury, lamports)
  {
    hide Allowed;
    if m < n {
      var l := run[n - 1];
      UnclosedKeeps(start, run, treasury, m, n - 1, s, c, lamports);
      LandingOf(start, run, treasury, n - 1);
      LandingOf(start, run, treasury, n);
      hide Run, Closes, ExecuteAll;
      if TakesEffect(l) {
        UnclosedStays(Charged(l.before, l.fee), l.tx, c);
      }
      assert End(start, run[..n]) == l.after;
    }
  }
}
