/** What the treasury does lose: accepted transactions that reach the bound, and exactly when a booking covers the
    rent that a transaction can lose, with one it does not cover. */
module RentLosses {
  import opened Basics
  import opened Sums
  import opened Transactions
  import opened RentShape
  import opened ContextLedger
  import opened ContextDebits
  import opened ContextRuns
  import CS = Cosigning

  // ---- creating the range context ----

  /** The data of a createAccount for the proof program. */
  function CreateData(lamports: nat, space: nat): Bytes {
    ToLittleEndian(0, 4) + ToLittleEndian(lamports, 8) + ToLittleEndian(space, 8)
      + ToBigEndian(ZK_ELGAMAL_PROOF_PROGRAM, 32)
  }

  function RangeCreate(rules: Rules, c: Address): Instruction {
    Instruction(SYSTEM_PROGRAM, [Account(rules.treasury, true, true), Account(c, true, true)],
                CreateData(rules.rangeContextLamports, RANGE_PROOF_CONTEXT_SPACE))
  }

  lemma CreateDataParts(lamports: nat, space: nat)
    ensures var data := CreateData(lamports, space);
      && |data| == 52
      && data[..4] == ToLittleEndian(0, 4) && data[4..12] == ToLittleEndian(lamports, 8)
      && data[12..20] == ToLittleEndian(space, 8) && data[20..52] == ToBigEndian(ZK_ELGAMAL_PROOF_PROGRAM, 32)
  {
    hide ToLittleEndian, ToBigEndian;
  }

  lemma RangeCreateReads(rules: Rules, c: Address)
    requires rules.rangeContextLamports < Pow256(8)
    ensures IsCreate(RangeCreate(rules, c))
    ensures CreateOf(RangeCreate(rules, c))
      == Create(rules.treasury, c, rules.rangeContextLamports, RANGE_PROOF_CONTEXT_SPACE, ZK_ELGAMAL_PROOF_PROGRAM)
  {
    hide ToLittleEndian, ToBigEndian, LittleEndian, BigEndian, CreateData;
    CreateDataParts(rules.rangeContextLamports, RANGE_PROOF_CONTEXT_SPACE);
    Powers();
    hide Pow256;
    LittleEndianRoundTrip(0, 4);
    LittleEndianRoundTrip(rules.rangeContextLamports, 8);
    LittleEndianRoundTrip(RANGE_PROOF_CONTEXT_SPACE, 8);
    BigEndianRoundTrip(ZK_ELGAMAL_PROOF_PROGRAM, 32);
  }

  lemma Powers()
    ensures Pow256(4) == 0x1_0000_0000 && Pow256(8) == 0x1_0000_0000_0000_0000
    ensures Pow256(32) == 0x1_0000_0000_0000_0000_0000_0000_0000_0000_0000_0000_0000_0000_0000_0000_0000_0000
  {
    assert Pow256(4) == 256 * (256 * (256 * (256 * Pow256(0))));
    assert Pow256(8) == 256 * (256 * (256 * (256 * Pow256(4))));
    assert Pow256(12) == 256 * (256 * (256 * (256 * Pow256(8))));
    assert Pow256(16) == 256 * (256 * (256 * (256 * Pow256(12))));
    assert Pow256(20) == 256 * (256 * (256 * (256 * Pow256(16))));
    assert Pow256(24) == 256 * (256 * (256 * (256 * Pow256(20))));
    assert Pow256(28) == 256 * (256 * (256 * (256 * Pow256(24))));
    assert Pow256(32) == 256 * (256 * (256 * (256 * Pow256(28))));
  }

  /** Closes context `c` back to the treasury; verifies a proof into it under the treasury's authority. */
  function Close(rules: Rules, c: Address): Instruction {
    Instruction(ZK_ELGAMAL_PROOF_PROGRAM,
      [Account(c, false, true), Account(rules.treasury, false, true), Account(rules.treasury, true, false)], [ZK_CLOSE])
  }

  function Verify(rules: Rules, c: Address): Instruction {
    Instruction(ZK_ELGAMAL_PROOF_PROGRAM, [Account(c, false, true), Account(rules.treasury, false, false)], [1])
  }

  /** Rules that leave room for one range context. */
  predicate Roomy(rules: Rules) {
    && rules.rangeContextLamports <= rules.maxContextLamports && rules.rangeContextLamports < Pow256(8)
    && rules.maxContextSpace >= RANGE_PROOF_CONTEXT_SPACE && rules.maxCreateAccounts >= 1
  }

  lemma RangeCreateStands(rules: Rules, made: Address, tx: Transaction)
    requires Roomy(rules) && made != rules.treasury && tx != [] && tx[0] == RangeCreate(rules, made)
    ensures InstructionAllowed(tx, 0, rules) && tx[0].program == SYSTEM_PROGRAM
  {
    RangeCreateReads(rules, made);
    hide IsCreate, CreateOf, RangeCreate, Initialises, Pow256;
  }

  lemma ProofStands(rules: Rules, tx: Transaction, i: nat)
    requires i < |tx| && tx[i].program == ZK_ELGAMAL_PROOF_PROGRAM
      && (VerifyAllowed(tx[i], rules) || CloseAllowed(tx[i], rules))
    ensures InstructionAllowed(tx, i, rules)
  {
    hide VerifyAllowed, CloseAllowed;
  }

  lemma CreateCounts(rules: Rules, ix: Instruction, rest: Transaction)
    requires ix.program == SYSTEM_PROGRAM && rules.maxCreateAccounts >= 1
    requires forall i :: 0 <= i < |rest| ==> rest[i].program == ZK_ELGAMAL_PROOF_PROGRAM
    ensures CountsAllowed([ix] + rest, rules)
  {
    var tx := [ix] + rest;
    hide Calls;
    OnlyProofs(rest, SYSTEM_PROGRAM);
    OnlyProofs(rest, TOKEN_2022_PROGRAM);
    OnlyProofs(rest, RELSTATE_PROGRAM);
    assert tx[1..] == rest;
    CallsFirst(tx, SYSTEM_PROGRAM);
    CallsFirst(tx, TOKEN_2022_PROGRAM);
    CallsFirst(tx, RELSTATE_PROGRAM);
  }

  /** Creating the range context and then proving into and closing others is accepted. */
  lemma CreateAndCloseAllowed(rules: Rules, made: Address, rest: Transaction)
    requires Roomy(rules) && made != rules.treasury
    requires forall i :: 0 <= i < |rest| ==>
      rest[i].program == ZK_ELGAMAL_PROOF_PROGRAM && (VerifyAllowed(rest[i], rules) || CloseAllowed(rest[i], rules))
    ensures Allowed([RangeCreate(rules, made)] + rest, rules)
  {
    var ix := RangeCreate(rules, made);
    var tx := [ix] + rest;
    RangeCreateStands(rules, made, tx);
    CreateCounts(rules, ix, rest);
    hide RangeCreate, VerifyAllowed, CloseAllowed, CountsAllowed, InstructionAllowed;
    forall i | 0 < i < |tx| ensures InstructionAllowed(tx, i, rules) {
      assert tx[i] == rest[i - 1];
      ProofStands(rules, tx, i);
    }
    assert tx[..|tx|] == tx;
  }

  lemma {:induction false} OnlyProofs(tx: Transaction, program: Address)
    requires program != ZK_ELGAMAL_PROOF_PROGRAM && forall i :: 0 <= i < |tx| ==>
      tx[i].program == ZK_ELGAMAL_PROOF_PROGRAM
    ensures Calls(tx, program) == 0
  {
    if tx != [] {
      OnlyProofs(tx[..|tx| - 1], program);
    }
  }

  /** What creating the range context does. */
  lemma MadeRange(rules: Rules, s: Ledger, made: Address)
    requires rules.rangeContextLamports < Pow256(8) && made !in s.contexts && s.treasury >= rules.rangeContextLamports
    ensures Execute(s, RangeCreate(rules, made)) ==
      Some(Ledger(s.treasury - rules.rangeContextLamports,
                    s.contexts[made := Context(rules.rangeContextLamports, RANGE_PROOF_CONTEXT_SPACE, None)]))
  {
    RangeCreateReads(rules, made);
    hide IsCreate, CreateOf, RangeCreate, Pow256;
  }

  lemma ExecuteFirst(s: Ledger, ix: Instruction, rest: Transaction)
    ensures ExecuteAll(s, [ix] + rest) == match Execute(s, ix) case None => None case Some(t) => ExecuteAll(t, rest)
  {
    assert ([ix] + rest)[1..] == rest;
    hide Execute;
  }

  lemma Room(rules: Rules)
    requires Roomy(rules)
    ensures rules.rangeContextLamports < Pow256(8)
  {
  }

  lemma NobodysTaken(t: Ledger, made: Address, treasury: Address)
    requires made in t.contexts && t.contexts[made].authority == None
    ensures OthersAct(t, t.(contexts := t.contexts - {made}), treasury)
  {
  }

  // ---- the bound is reached: the residual the header admits is real ----

  lemma BareAlone(rules: Rules, c: Address)
    requires rules.rangeContextLamports < Pow256(8)
    ensures BareCreates([RangeCreate(rules, c)]) == 1
  {
    RangeCreateReads(rules, c);
    hide RangeCreate, Pow256, IsCreate;
    assert [RangeCreate(rules, c)][1..] == [];
    assert !InitialisedAfter([RangeCreate(rules, c)], 0, c);
  }

  lemma MadeAlone(rules: Rules, s: Ledger, c: Address)
    requires rules.rangeContextLamports < Pow256(8) && c !in s.contexts && s.treasury >= rules.rangeContextLamports
    ensures var r := ExecuteAll(s, [RangeCreate(rules, c)]);
      && r.Some? && r.value.treasury == s.treasury - rules.rangeContextLamports
      && c in r.value.contexts && r.value.contexts[c].authority == None && r.value.contexts - {c} == s.contexts
  {
    MadeRange(rules, s, c);
    hide RangeCreate, Pow256, Execute;
    assert [RangeCreate(rules, c)] + [] == [RangeCreate(rules, c)];
    ExecuteFirst(s, RangeCreate(rules, c), []);
  }

  lemma RentTaken(s: Ledger, t: Ledger, c: Address, rules: Rules)
    requires t.treasury == s.treasury - rules.rangeContextLamports && t.contexts - {c} == s.contexts
    ensures Secured(s, rules.treasury)
         == Secured(t.(contexts := t.contexts - {c}), rules.treasury) + rules.rangeContextLamports
  {
    assert Claims(t.(contexts := t.contexts - {c}), rules.treasury, []) == Claims(s, rules.treasury, []);
  }

  /** Under rules that leave room for the range context, there is an accepted one-instruction transaction
      after which someone else can take the new context away, so that exactly its rent is lost. */
  lemma BoundIsReached(s: Ledger, rules: Rules, c: Address)
    requires Roomy(rules) && c != rules.treasury && c !in s.contexts && s.treasury >= rules.rangeContextLamports
    ensures var tx := [RangeCreate(rules, c)];
      && Allowed(tx, rules) && BareCreates(tx) == 1 && ExecuteAll(s, tx).Some?
      && var t := ExecuteAll(s, tx).value;
         var taken := t.(contexts := t.contexts - {c});
      && OthersAct(t, taken, rules.treasury)
      && Secured(s, rules.treasury) == Secured(taken, rules.treasury) + rules.rangeContextLamports
  {
    hide *;
    Room(rules);
    assert [RangeCreate(rules, c)] + [] == [RangeCreate(rules, c)];
    CreateAndCloseAllowed(rules, c, []);
    BareAlone(rules, c);
    MadeAlone(rules, s, c);
    NobodysTaken(ExecuteAll(s, [RangeCreate(rules, c)]).value, c, rules.treasury);
    RentTaken(s, ExecuteAll(s, [RangeCreate(rules, c)]).value, c, rules);
  }

  // ---- what the booking does not cover ----

  lemma ClosedAlone(rules: Rules, s: Ledger, held: Address)
    requires held in s.contexts && s.contexts[held].authority == Some(rules.treasury)
    ensures ExecuteAll(s, [Close(rules, held)])
      == Some(Ledger(s.treasury + s.contexts[held].lamports, s.contexts - {held}))
  {
    assert [Close(rules, held)][1..] == [];
  }

  lemma MadeAndClosed(rules: Rules, s: Ledger, made: Address, held: Address)
    requires rules.rangeContextLamports < Pow256(8) && made !in s.contexts && s.treasury >= rules.rangeContextLamports
    requires held in s.contexts && s.contexts[held].authority == Some(rules.treasury)
    ensures var r := ExecuteAll(s, [RangeCreate(rules, made), Close(rules, held)]);
      && r.Some? && r.value.treasury == s.treasury - rules.rangeContextLamports + s.contexts[held].lamports
      && r.value.contexts - {made} == s.contexts - {held} && made in r.value.contexts
      && r.value.contexts[made].authority == None
  {
    hide Pow256, Execute, ExecuteAll, RangeCreate, Close;
    MadeRange(rules, s, made);
    ExecuteFirst(s, RangeCreate(rules, made), [Close(rules, held)]);
    assert [RangeCreate(rules, made)] + [Close(rules, held)] == [RangeCreate(rules, made), Close(rules, held)];
    ClosedAlone(rules, Execute(s, RangeCreate(rules, made)).value, held);
  }

  lemma SecuredWithout(s: Ledger, t: Ledger, held: Address, treasury: Address)
    requires held in s.contexts && s.contexts[held].authority == Some(treasury)
    requires t == Ledger(s.treasury, s.contexts - {held})
    ensures Secured(s, treasury) == Secured(t, treasury) + s.contexts[held].lamports
  {
    var claims := Claims(s, treasury, []);
    assert Claims(t, treasury, []) == claims - {held};
    TotalSplit(claims, held);
  }

  lemma CloseIsAllowed(rules: Rules, made: Address, held: Address)
    requires Roomy(rules) && made != rules.treasury && held != rules.treasury
    ensures Allowed([RangeCreate(rules, made), Close(rules, held)], rules)
  {
    assert CloseAllowed(Close(rules, held), rules);
    hide VerifyAllowed, CloseAllowed, RangeCreate, Allowed, Roomy, Close;
    CreateAndCloseAllowed(rules, made, [Close(rules, held)]);
    assert [RangeCreate(rules, made)] + [Close(rules, held)] == [RangeCreate(rules, made), Close(rules, held)];
  }

  /** Cosigned with readings that do not move, an accepted transaction that creates range contexts without a proof is
      booked at its fee and their rent, which is what it can lose, exactly when what it closes brings in no more than
      its other creates cost. What is missing otherwise is `Hidden`. */
  lemma BookingCoversExactly(s: Ledger, tx: Transaction, rules: Rules, fee: nat)
    requires Allowed(tx, rules) && ExecuteAll(s, tx).Some?
    ensures var booked := CS.Booked(CS.Spent(s.treasury, s.treasury, ExecuteAll(s, tx).value.treasury), fee);
      var bare := BareCreates(tx) * rules.rangeContextLamports;
      && fee + bare <= booked + Hidden(s, tx, rules)
      && (bare > 0 ==> (fee + bare <= booked <==> Refunds(s, tx) <= ProvedRent(tx)))
  {
    hide ExecuteAll, Refunds, ProvedRent, BareCreates, Allowed, Hidden;
    HiddenExactly(s, tx, rules);
  }

  lemma CloseIsNoProof(rules: Rules, held: Address, made: Address)
    ensures !IsCreate(Close(rules, held)) && !Initialises(Close(rules, held), made)
  {
    hide IsCreate;
    assert Close(rules, held).program == ZK_ELGAMAL_PROOF_PROGRAM && Close(rules, held).Tagged(ZK_CLOSE);
    NotSystem(Close(rules, held));
  }

  lemma NotSystem(ix: Instruction)
    requires ix.program == ZK_ELGAMAL_PROOF_PROGRAM
    ensures !IsCreate(ix)
  {
  }

  /** A create followed by no proof is bare; what is no create adds nothing. */
  lemma OneBare(first: Instruction, last: Instruction)
    requires IsCreate(first) && !IsCreate(last) && !Initialises(last, CreateOf(first).target)
    ensures BareCreates([first, last]) == 1 && ProvedRent([first, last]) == 0
  {
    hide IsCreate, CreateOf, Initialises;
    var tx := [first, last];
    assert tx[1..] == [last] && [last][1..] == [];
    assert !InitialisedAfter(tx, 0, CreateOf(first).target);
    assert IsBare(tx, 0) && !IsBare([last], 0) && RentOf(last) == 0;
    assert BareCreates([last]) == 0 && ProvedRent([last]) == 0;
  }

  lemma ClosedAndCreated(rules: Rules, made: Address, held: Address)
    requires rules.rangeContextLamports < Pow256(8)
    ensures var tx := [RangeCreate(rules, made), Close(rules, held)];
      BareCreates(tx) == 1 && ProvedRent(tx) == 0
  {
    hide *;
    RangeCreateReads(rules, made);
    CloseIsNoProof(rules, held, made);
    OneBare(RangeCreate(rules, made), Close(rules, held));
  }

  /** Such a transaction creates the range context and closes one that holds as much. It is accepted and leaves the
      treasury's balance as it is, so only its fee is booked; yet once someone takes the new context, the treasury's
      lamports and claims are down by its rent. */
  lemma RentUnbooked(s: Ledger, rules: Rules, made: Address, held: Address, fee: nat)
    requires Roomy(rules) && made != rules.treasury && held != rules.treasury
    requires made !in s.contexts && s.treasury >= rules.rangeContextLamports
    requires held in s.contexts && s.contexts[held].authority == Some(rules.treasury)
    requires s.contexts[held].lamports == rules.rangeContextLamports
    ensures var tx := [RangeCreate(rules, made), Close(rules, held)];
      && Allowed(tx, rules) && ExecuteAll(s, tx).Some?
      && (rules.rangeContextLamports > 0 ==> ProvedRent(tx) < Refunds(s, tx))
      && var t := ExecuteAll(s, tx).value;
         var taken := t.(contexts := t.contexts - {made});
      && OthersAct(t, taken, rules.treasury)
      && CS.Booked(CS.Spent(s.treasury, s.treasury, t.treasury), fee) == fee
      && Secured(s, rules.treasury) == Secured(taken, rules.treasury) + rules.rangeContextLamports
  {
    hide *;
    var tx := [RangeCreate(rules, made), Close(rules, held)];
    Room(rules);
    CloseIsAllowed(rules, made, held);
    MadeAndClosed(rules, s, made, held);
    ClosedAndCreated(rules, made, held);
    NothingSpent(s.treasury, fee);
    BookingCoversExactly(s, tx, rules, fee);
    var t := ExecuteAll(s, tx).value;
    NobodysTaken(t, made, rules.treasury);
    SecuredWithout(s, t.(contexts := t.contexts - {made}), held, rules.treasury);
  }

  lemma NothingSpent(balance: nat, fee: nat)
    ensures CS.Booked(CS.Spent(balance, balance, balance), fee) == fee
  {
  }

  lemma Emptied(lamports: nat, treasury: Address, open: Address, a: Context, b: Context)
    requires a.authority == None
    ensures OthersAct(Ledger(lamports, map[open := a]), Ledger(lamports, map[open := b]), treasury)
  {
  }

  lemma ProveAndCloseAllowed(rules: Rules, made: Address, open: Address)
    requires Roomy(rules) && made != rules.treasury && open != rules.treasury
    ensures Allowed([RangeCreate(rules, made), Verify(rules, open), Close(rules, open)], rules)
  {
    assert VerifyAllowed(Verify(rules, open), rules) && CloseAllowed(Close(rules, open), rules);
    hide VerifyAllowed, CloseAllowed, RangeCreate, Allowed, Roomy, Verify, Close;
    CreateAndCloseAllowed(rules, made, [Verify(rules, open), Close(rules, open)]);
    assert [RangeCreate(rules, made)] + [Verify(rules, open), Close(rules, open)]
      == [RangeCreate(rules, made), Verify(rules, open), Close(rules, open)];
  }

  lemma ProvedThenClosed(rules: Rules, s: Ledger, open: Address)
    requires open in s.contexts && s.contexts[open].authority == None
    ensures ExecuteAll(s, [Verify(rules, open), Close(rules, open)])
      == Some(Ledger(s.treasury + s.contexts[open].lamports, s.contexts - {open}))
  {
    assert [Verify(rules, open)] + [Close(rules, open)] == [Verify(rules, open), Close(rules, open)];
    ExecuteFirst(s, Verify(rules, open), [Close(rules, open)]);
    var t := Execute(s, Verify(rules, open)).value;
    assert t == s.(contexts := s.contexts[open := s.contexts[open].(authority := Some(rules.treasury))]);
    hide Execute, ExecuteAll, Close, Verify;
    ClosedAlone(rules, t, open);
    assert t.contexts - {open} == s.contexts - {open};
  }

  lemma ProvedAndClosed(rules: Rules, s: Ledger, made: Address, open: Address, lamports: nat, space: nat)
    requires rules.rangeContextLamports < Pow256(8) && made != open && s.treasury >= rules.rangeContextLamports
    requires s.contexts == map[open := Context(lamports, space, None)]
    ensures var r := ExecuteAll(s, [RangeCreate(rules, made), Verify(rules, open), Close(rules, open)]);
      r.Some? && r.value.treasury == s.treasury - rules.rangeContextLamports + lamports
  {
    hide Pow256, Execute, ExecuteAll, RangeCreate, Close, Verify;
    var rest := [Verify(rules, open), Close(rules, open)];
    MadeRange(rules, s, made);
    ExecuteFirst(s, RangeCreate(rules, made), rest);
    assert [RangeCreate(rules, made)] + rest == [RangeCreate(rules, made), Verify(rules, open), Close(rules, open)];
    ProvedThenClosed(rules, Execute(s, RangeCreate(rules, made)).value, open);
  }

  /** A booking is of what the transaction does in the simulation; at the landing it can take out more, exactly when
      what it closes brings in less (`ContextDebits.DebitNoLargerExactly`). A context without authority is still
      anyone's: between the simulation and the landing it can be emptied, and a transaction that proves into it and
      closes it, besides creating a range context, then takes out a whole rent of which nothing was booked. */
  lemma RefundCanShrink(rules: Rules, lamports: nat, made: Address, open: Address, space: nat)
    requires Roomy(rules) && made != rules.treasury && open != rules.treasury && made != open
      && lamports >= rules.rangeContextLamports
    ensures var tx := [RangeCreate(rules, made), Verify(rules, open), Close(rules, open)];
      var s := Ledger(lamports, map[open := Context(rules.rangeContextLamports, space, None)]);
      var emptied := Ledger(lamports, map[open := Context(0, space, None)]);
      && Allowed(tx, rules) && OthersAct(s, emptied, rules.treasury)
      && ExecuteAll(s, tx).Some? && ExecuteAll(s, tx).value.treasury == lamports
      && ExecuteAll(emptied, tx).Some?
      && ExecuteAll(emptied, tx).value.treasury == lamports - rules.rangeContextLamports
  {
    hide *;
    ProveAndCloseAllowed(rules, made, open);
    Room(rules);
    ProvedAndClosed(rules, Ledger(lamports, map[open := Context(rules.rangeContextLamports, space, None)]), made, open,
      rules.rangeContextLamports, space);
    ProvedAndClosed(rules, Ledger(lamports, map[open := Context(0, space, None)]), made, open, 0, space);
    Emptied(lamports, rules.treasury, open, Context(rules.rangeContextLamports, space, None), Context(0, space, None));
  }
}
