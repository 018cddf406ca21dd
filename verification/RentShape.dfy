/** What a treasury-cosigned rent-payment transaction may contain (backend/src/rentshape.ts). */
module RentShape {
  import opened Basics
  import opened Transactions

  const CREATE_ACCOUNT_DATA_LENGTH := 52
  const SYSTEM_CREATE_ACCOUNT := 0
  const CT_EXTENSION: byte := 27
  const CT_TRANSFER: byte := 7
  const ZK_CLOSE: byte := 0
  const ZK_MAX_VERIFY_TAG: byte := 12
  const MAX_TRANSFER_DATA := 512
  const RANGE_PROOF_CONTEXT_SPACE := 297

  datatype Rules = Rules(treasury: Address, wallet: Address, mint: Address, walletToken: Address,
                   maxContextLamports: nat,
                         maxContextSpace: nat, maxCreateAccounts: nat, rangeContextLamports: nat)

  datatype Code =
    | InstructionNotAllowed | ContextTooExpensive | ContextTooLarge | TooManyAccounts | UnverifiedContext
    | CloseDestination | WrongContextAuthority | TreasuryInTokenInstruction | WrongSource | WrongMint | WrongAuthority
    | TreasuryInProgramInstruction | MissingTransfer | ComputeBudgetAccounts | ProgramNotAllowed

  datatype Denial = Denial(index: nat, code: Code)

  // ---- reading instructions ----

  /** A System createAccount, read out of its 52 bytes of data. */
  datatype Create = Create(funder: Address, target: Address, lamports: nat, space: nat, owner: Address)

  predicate IsCreate(ix: Instruction) {
    && ix.program == SYSTEM_PROGRAM && |ix.data| == CREATE_ACCOUNT_DATA_LENGTH
    && LittleEndian(ix.data[..4]) == SYSTEM_CREATE_ACCOUNT && |ix.accounts| == 2
  }

  function CreateOf(ix: Instruction): Create
    requires IsCreate(ix)
  {
    Create(ix.accounts[0].address, ix.accounts[1].address, LittleEndian(ix.data[4..12]), LittleEndian(ix.data[12..20]),
           BigEndian(ix.data[20..52]))
  }

  /** A proof-program instruction other than a close, into account `c`. */
  predicate Initialises(ix: Instruction, c: Address) {
    ix.program == ZK_ELGAMAL_PROOF_PROGRAM && !ix.Tagged(ZK_CLOSE) && ix.At(0) == Some(c)
  }

  predicate IsTransfer(ix: Instruction) {
    ix.program == TOKEN_2022_PROGRAM && |ix.data| >= 2 && ix.data[0] == CT_EXTENSION && ix.data[1] == CT_TRANSFER
  }

  predicate Names(ix: Instruction, a: Address) {
    exists p :: 0 <= p < |ix.accounts| && ix.accounts[p].address == a
  }

  /** Account `c` gets a proof later in the transaction. */
  predicate InitialisedAfter(tx: Transaction, i: nat, c: Address) {
    exists j :: i < j < |tx| && Initialises(tx[j], c)
  }

  // ---- what is allowed, program by program ----

  /** The treasury funds a new account of the proof program, within the caps. */
  predicate CreateAllowed(ix: Instruction, rules: Rules) {
    && IsCreate(ix)
    && var c := CreateOf(ix);
    && c.funder == rules.treasury && c.target != rules.treasury && c.owner == ZK_ELGAMAL_PROOF_PROGRAM
    && c.lamports <= rules.maxContextLamports && 1 <= c.space <= rules.maxContextSpace
  }

  /** Exactly the range-proof context. */
  predicate IsRangeContext(ix: Instruction, rules: Rules)
    requires IsCreate(ix)
  {
    CreateOf(ix).space == RANGE_PROOF_CONTEXT_SPACE && CreateOf(ix).lamports == rules.rangeContextLamports
  }

  predicate VerifyAllowed(ix: Instruction, rules: Rules) {
    && |ix.data| > 0 && 1 <= ix.data[0] <= ZK_MAX_VERIFY_TAG
    && |ix.accounts| == 2 && ix.At(0) != Some(rules.treasury) && ix.At(1) == Some(rules.treasury)
  }

  predicate CloseAllowed(ix: Instruction, rules: Rules) {
    && ix.Tagged(ZK_CLOSE)
    && |ix.accounts| == 3 && ix.At(0) != Some(rules.treasury) && ix.At(1) == ix.At(2) == Some(rules.treasury)
  }

  predicate TransferAllowed(ix: Instruction, rules: Rules) {
    && IsTransfer(ix) && !Names(ix, rules.treasury) && |ix.data| <= MAX_TRANSFER_DATA
    && ix.At(0) == Some(rules.walletToken) && ix.At(1) == Some(rules.mint)
    && |ix.accounts| > 0 && var authority := ix.accounts[|ix.accounts| - 1];
       authority.address == rules.wallet && authority.isSigner
  }

  /** What is asked of a pay_rent, apart from what stands before it. */
  predicate PayRentFields(ix: Instruction, rules: Rules) {
    && ix.data == PAY_RENT_DISCRIMINATOR && !Names(ix, rules.treasury)
    && |ix.accounts| > 0 && ix.accounts[0].address == rules.wallet && ix.accounts[0].isSigner
    && ix.At(2) == Some(rules.mint) && ix.At(3) == Some(rules.walletToken)
  }

  predicate PayRentAllowed(tx: Transaction, i: nat, rules: Rules)
    requires i < |tx|
  {
    PayRentFields(tx[i], rules) && i > 0 && IsTransfer(tx[i - 1])
  }

  predicate InstructionAllowed(tx: Transaction, i: nat, rules: Rules)
    requires i < |tx|
  {
    var ix := tx[i];
    if ix.program == SYSTEM_PROGRAM then
      CreateAllowed(ix, rules) && (InitialisedAfter(tx, i, CreateOf(ix).target) || IsRangeContext(ix, rules))
    else if ix.program == ZK_ELGAMAL_PROOF_PROGRAM then VerifyAllowed(ix, rules) || CloseAllowed(ix, rules)
    else if ix.program == TOKEN_2022_PROGRAM then TransferAllowed(ix, rules)
    else if ix.program == RELSTATE_PROGRAM then PayRentAllowed(tx, i, rules)
    else ix.program == COMPUTE_BUDGET_PROGRAM && ix.accounts == []
  }

  /** At most the configured number of creates, one transfer and one pay_rent. */
  predicate CountsAllowed(tx: Transaction, rules: Rules) {
    && Calls(tx, SYSTEM_PROGRAM) <= rules.maxCreateAccounts
    && Calls(tx, TOKEN_2022_PROGRAM) <= 1
    && Calls(tx, RELSTATE_PROGRAM) <= 1
  }

  /** The first `n` instructions are allowed. */
  predicate PrefixAllowed(tx: Transaction, n: nat, rules: Rules)
    requires n <= |tx|
  {
    (forall i :: 0 <= i < n ==> InstructionAllowed(tx, i, rules)) && CountsAllowed(tx[..n], rules)
  }

  predicate Allowed(tx: Transaction, rules: Rules) {
    PrefixAllowed(tx, |tx|, rules)
  }

  // ---- what each denial stands for ----

  /** A createAccount of the proof program's, funded by the treasury into another account. */
  predicate PlainCreate(ix: Instruction, rules: Rules) {
    && IsCreate(ix)
    && CreateOf(ix).funder == rules.treasury && CreateOf(ix).target != rules.treasury
    && CreateOf(ix).owner == ZK_ELGAMAL_PROOF_PROGRAM
  }

  predicate CreateDenied(tx: Transaction, i: nat, rules: Rules, creates: nat, code: Code)
    requires i < |tx|
  {
    var ix := tx[i];
    match code
    case InstructionNotAllowed => !PlainCreate(ix, rules)
    case ContextTooExpensive => PlainCreate(ix, rules) && CreateOf(ix).lamports > rules.maxContextLamports
    case ContextTooLarge =>
      && PlainCreate(ix, rules) && CreateOf(ix).lamports <= rules.maxContextLamports
      && !(1 <= CreateOf(ix).space <= rules.maxContextSpace)
    case TooManyAccounts => CreateAllowed(ix, rules) && creates >= rules.maxCreateAccounts
    case UnverifiedContext =>
      && CreateAllowed(ix, rules) && creates < rules.maxCreateAccounts
      && !InitialisedAfter(tx, i, CreateOf(ix).target) && !IsRangeContext(ix, rules)
    case _ => false
  }

  predicate ProofDenied(ix: Instruction, rules: Rules, code: Code) {
    match code
    case InstructionNotAllowed => |ix.data| == 0 || ix.data[0] > ZK_MAX_VERIFY_TAG || ix.At(0) == Some(rules.treasury)
    case CloseDestination =>
      && ix.Tagged(ZK_CLOSE) && ix.At(0) != Some(rules.treasury)
      && !(|ix.accounts| == 3 && ix.At(1) == ix.At(2) == Some(rules.treasury))
    case WrongContextAuthority =>
      && |ix.data| > 0 && 1 <= ix.data[0] <= ZK_MAX_VERIFY_TAG && ix.At(0) != Some(rules.treasury)
      && !(|ix.accounts| == 2 && ix.At(1) == Some(rules.treasury))
    case _ => false
  }

  /** The wallet signs at position `p`. */
  predicate SignsAt(ix: Instruction, p: int, rules: Rules) {
    0 <= p < |ix.accounts| && ix.accounts[p].address == rules.wallet && ix.accounts[p].isSigner
  }

  predicate TransferDenied(ix: Instruction, rules: Rules, transfers: nat, code: Code) {
    var clean := IsTransfer(ix) && !Names(ix, rules.treasury) && |ix.data| <= MAX_TRANSFER_DATA;
    match code
    case TreasuryInTokenInstruction => IsTransfer(ix) && Names(ix, rules.treasury)
    case WrongSource => clean && ix.At(0) != Some(rules.walletToken)
    case WrongMint => clean && ix.At(0) == Some(rules.walletToken) && ix.At(1) != Some(rules.mint)
    case WrongAuthority =>
      && clean && ix.At(0) == Some(rules.walletToken) && ix.At(1) == Some(rules.mint)
      && !SignsAt(ix, |ix.accounts| - 1, rules)
    case InstructionNotAllowed =>
      || !IsTransfer(ix) || (!Names(ix, rules.treasury) && |ix.data| > MAX_TRANSFER_DATA)
      || (TransferAllowed(ix, rules) && transfers > 0)
    case _ => false
  }

  predicate PayRentDenied(tx: Transaction, i: nat, rules: Rules, payRents: nat, code: Code)
    requires i < |tx|
  {
    var ix := tx[i];
    var clean := ix.data == PAY_RENT_DISCRIMINATOR && !Names(ix, rules.treasury);
    match code
    case TreasuryInProgramInstruction => ix.data == PAY_RENT_DISCRIMINATOR && Names(ix, rules.treasury)
    case WrongAuthority => clean && !SignsAt(ix, 0, rules)
    case WrongMint =>
      clean && SignsAt(ix, 0, rules) && !(ix.At(2) == Some(rules.mint) && ix.At(3) == Some(rules.walletToken))
    case MissingTransfer => PayRentFields(ix, rules) && !(i > 0 && IsTransfer(tx[i - 1]))
    case InstructionNotAllowed =>
      ix.data != PAY_RENT_DISCRIMINATOR || (PayRentAllowed(tx, i, rules) && payRents > 0)
    case _ => false
  }

  /** Instruction `i`, behind so many of each kind, is denied with this code. */
  predicate Denied(tx: Transaction, i: nat, rules: Rules, creates: nat, transfers: nat, payRents: nat, code: Code)
    requires i < |tx|
  {
    var ix := tx[i];
    if ix.program == SYSTEM_PROGRAM then CreateDenied(tx, i, rules, creates, code)
    else if ix.program == ZK_ELGAMAL_PROOF_PROGRAM then ProofDenied(ix, rules, code)
    else if ix.program == TOKEN_2022_PROGRAM then TransferDenied(ix, rules, transfers, code)
    else if ix.program == RELSTATE_PROGRAM then PayRentDenied(tx, i, rules, payRents, code)
    else if ix.program == COMPUTE_BUDGET_PROGRAM then ix.accounts != [] && code == ComputeBudgetAccounts
    else code == ProgramNotAllowed
  }

  // ---- the filter ----

  method CheckCreate(tx: Transaction, i: nat, rules: Rules, creates: nat) returns (bad: Option<Code>)
    requires i < |tx| && tx[i].program == SYSTEM_PROGRAM
    ensures bad.None? <==> InstructionAllowed(tx, i, rules) && creates < rules.maxCreateAccounts
    ensures forall code :: bad == Some(code) <==> CreateDenied(tx, i, rules, creates, code)
  {
    var ix := tx[i];
    if |ix.data| != CREATE_ACCOUNT_DATA_LENGTH {
      return Some(InstructionNotAllowed);
    }
    if LittleEndian(ix.data[..4]) != SYSTEM_CREATE_ACCOUNT {
      return Some(InstructionNotAllowed);
    }
    if |ix.accounts| != 2 || ix.At(0) != Some(rules.treasury) || ix.At(1) == Some(rules.treasury) {
      return Some(InstructionNotAllowed);
    }
    var lamports := LittleEndian(ix.data[4..12]);
    var space := LittleEndian(ix.data[12..20]);
    var owner := BigEndian(ix.data[20..52]);
    if owner != ZK_ELGAMAL_PROOF_PROGRAM {
      return Some(InstructionNotAllowed);
    }
    if lamports > rules.maxContextLamports {
      return Some(ContextTooExpensive);
    }
    if space == 0 || space > rules.maxContextSpace {
      return Some(ContextTooLarge);
    }
    if creates + 1 > rules.maxCreateAccounts {
      return Some(TooManyAccounts);
    }
    var created := ix.accounts[1].address;
    var initialisedHere := false;
    for j := 0 to |tx|
      invariant initialisedHere <==> exists k :: i < k < j && Initialises(tx[k], created)
    {
      if j > i && Initialises(tx[j], created) {
        initialisedHere := true;
      }
    }
    if !initialisedHere && (space != RANGE_PROOF_CONTEXT_SPACE || lamports != rules.rangeContextLamports) {
      return Some(UnverifiedContext);
    }
    return None;
  }

  method CheckProof(ix: Instruction, rules: Rules) returns (bad: Option<Code>)
    ensures bad.None? <==> VerifyAllowed(ix, rules) || CloseAllowed(ix, rules)
    ensures forall code :: bad == Some(code) <==> ProofDenied(ix, rules, code)
  {
    if |ix.data| == 0 || ix.data[0] > ZK_MAX_VERIFY_TAG {
      return Some(InstructionNotAllowed);
    }
    if ix.At(0) == Some(rules.treasury) {
      return Some(InstructionNotAllowed);
    }
    if ix.data[0] == ZK_CLOSE {
      if |ix.accounts| != 3 || ix.At(1) != Some(rules.treasury) || ix.At(2) != Some(rules.treasury) {
        return Some(CloseDestination);
      }
    } else if |ix.accounts| != 2 || ix.At(1) != Some(rules.treasury) {
      return Some(WrongContextAuthority);
    }
    return None;
  }

  method CheckTransfer(ix: Instruction, rules: Rules, transfers: nat) returns (bad: Option<Code>)
    ensures bad.None? <==> TransferAllowed(ix, rules) && transfers == 0
    ensures forall code :: bad == Some(code) <==> TransferDenied(ix, rules, transfers, code)
  {
    if !IsTransfer(ix) {
      return Some(InstructionNotAllowed);
    }
    if Names(ix, rules.treasury) {
      return Some(TreasuryInTokenInstruction);
    }
    if |ix.data| > MAX_TRANSFER_DATA {
      return Some(InstructionNotAllowed);
    }
    if ix.At(0) != Some(rules.walletToken) {
      return Some(WrongSource);
    }
    if ix.At(1) != Some(rules.mint) {
      return Some(WrongMint);
    }
    var authority := ix.accounts[|ix.accounts| - 1];
    if authority.address != rules.wallet || !authority.isSigner {
      return Some(WrongAuthority);
    }
    if transfers + 1 > 1 {
      return Some(InstructionNotAllowed);
    }
    return None;
  }

  method CheckPayRent(tx: Transaction, i: nat, rules: Rules, payRents: nat) returns (bad: Option<Code>)
    requires i < |tx|
    ensures bad.None? <==> PayRentAllowed(tx, i, rules) && payRents == 0
    ensures forall code :: bad == Some(code) <==> PayRentDenied(tx, i, rules, payRents, code)
  {
    var ix := tx[i];
    if ix.data != PAY_RENT_DISCRIMINATOR {
      return Some(InstructionNotAllowed);
    }
    if Names(ix, rules.treasury) {
      return Some(TreasuryInProgramInstruction);
    }
    if |ix.accounts| == 0 || ix.accounts[0].address != rules.wallet || !ix.accounts[0].isSigner {
      return Some(WrongAuthority);
    }
    if ix.At(2) != Some(rules.mint) || ix.At(3) != Some(rules.walletToken) {
      return Some(WrongMint);
    }
    if i == 0 || !IsTransfer(tx[i - 1]) {
      return Some(MissingTransfer);
    }
    if payRents + 1 > 1 {
      return Some(InstructionNotAllowed);
    }
    return None;
  }

  /** Whether one more instruction of its program stays within the counts. */
  predicate RoomFor(ix: Instruction, rules: Rules, creates: nat, transfers: nat, payRents: nat) {
    && (ix.program == SYSTEM_PROGRAM ==> creates < rules.maxCreateAccounts)
    && (ix.program == TOKEN_2022_PROGRAM ==> transfers == 0)
    && (ix.program == RELSTATE_PROGRAM ==> payRents == 0)
  }

  lemma PrefixStep(tx: Transaction, i: nat, rules: Rules)
    requires i < |tx| && PrefixAllowed(tx, i, rules)
    ensures PrefixAllowed(tx, i + 1, rules) <==>
            && InstructionAllowed(tx, i, rules)
            && RoomFor(tx[i], rules, Calls(tx[..i], SYSTEM_PROGRAM), Calls(tx[..i], TOKEN_2022_PROGRAM),
                 Calls(tx[..i], RELSTATE_PROGRAM))
    ensures forall p :: Calls(tx[..i + 1], p) == Calls(tx[..i], p) + if tx[i].program == p then 1 else 0
  {
    hide InstructionAllowed;
    assert tx[..i + 1][..i] == tx[..i];
  }

  method CheckInstruction(tx: Transaction, i: nat, rules: Rules, creates: nat, transfers: nat, payRents: nat)
      returns (bad: Option<Code>)
    requires i < |tx|
    ensures bad.None? <==> InstructionAllowed(tx, i, rules) && RoomFor(tx[i], rules, creates, transfers, payRents)
    ensures forall code :: bad == Some(code) <==> Denied(tx, i, rules, creates, transfers, payRents, code)
  {
    hide CreateAllowed, VerifyAllowed, CloseAllowed, TransferAllowed, PayRentAllowed, CreateDenied, ProofDenied,
      TransferDenied, PayRentDenied;
    var ix := tx[i];
    if ix.program == SYSTEM_PROGRAM {
      bad := CheckCreate(tx, i, rules, creates);
    } else if ix.program == ZK_ELGAMAL_PROOF_PROGRAM {
      bad := CheckProof(ix, rules);
    } else if ix.program == TOKEN_2022_PROGRAM {
      bad := CheckTransfer(ix, rules, transfers);
    } else if ix.program == RELSTATE_PROGRAM {
      bad := CheckPayRent(tx, i, rules, payRents);
    } else if ix.program == COMPUTE_BUDGET_PROGRAM {
      bad := if |ix.accounts| > 0 then Some(ComputeBudgetAccounts) else None;
    } else {
      bad := Some(ProgramNotAllowed);
    }
  }

  /** Accepts exactly the allowed transactions, and otherwise names the first instruction that is not, and why. */
  method AssertRentPaymentShape(tx: Transaction, rules: Rules) returns (r: Result<(), Denial>)
    ensures r.Success? <==> Allowed(tx, rules)
    ensures r.Failure? ==> var i := r.error.index;
              && i < |tx| && PrefixAllowed(tx, i, rules) && !PrefixAllowed(tx, i + 1, rules)
              && forall code :: code == r.error.code <==>
                   Denied(tx, i, rules, Calls(tx[..i], SYSTEM_PROGRAM), Calls(tx[..i], TOKEN_2022_PROGRAM),
                     Calls(tx[..i], RELSTATE_PROGRAM), code)
  {
    var creates, transfers, payRents := 0, 0, 0;
    assert tx[..0] == [];
    for i := 0 to |tx|
      invariant PrefixAllowed(tx, i, rules)
      invariant creates == Calls(tx[..i], SYSTEM_PROGRAM)
      invariant transfers == Calls(tx[..i], TOKEN_2022_PROGRAM)
      invariant payRents == Calls(tx[..i], RELSTATE_PROGRAM)
    {
      PrefixStep(tx, i, rules);
      var bad := CheckInstruction(tx, i, rules, creates, transfers, payRents);
      if bad.Some? {
        PrefixOfAllowed(tx, i + 1, rules);
        return Failure(Denial(i, bad.value));
      }
      creates := creates + if tx[i].program == SYSTEM_PROGRAM then 1 else 0;
      transfers := transfers + if tx[i].program == TOKEN_2022_PROGRAM then 1 else 0;
      payRents := payRents + if tx[i].program == RELSTATE_PROGRAM then 1 else 0;
    }
    return Success(());
  }

  lemma PrefixOfAllowed(tx: Transaction, n: nat, rules: Rules)
    requires n <= |tx|
    ensures Allowed(tx, rules) ==> PrefixAllowed(tx, n, rules)
  {
    CallsMonotone(tx, n, SYSTEM_PROGRAM);
    CallsMonotone(tx, n, TOKEN_2022_PROGRAM);
    CallsMonotone(tx, n, RELSTATE_PROGRAM);
    assert tx[..|tx|] == tx;
  }

  // ---- where the treasury can appear ----

  /** The positions in which the treasury is harmless: createAccount's funder, a proof's authority, and a
      close's destination and authority. */
  predicate TreasuryPlace(ix: Instruction, p: nat) {
    || (IsCreate(ix) && p == 0)
    || (ix.program == ZK_ELGAMAL_PROOF_PROGRAM && !ix.Tagged(ZK_CLOSE) && |ix.accounts| == 2 && p == 1)
    || (ix.program == ZK_ELGAMAL_PROOF_PROGRAM && ix.Tagged(ZK_CLOSE) && |ix.accounts| == 3 && 1 <= p <= 2)
  }

  /** In an accepted transaction the treasury stands in those places, in every one of them, and nowhere
      else. */
  lemma TreasuryConfined(tx: Transaction, rules: Rules, i: nat, p: nat)
    requires Allowed(tx, rules) && i < |tx| && p < |tx[i].accounts|
    ensures tx[i].accounts[p].address == rules.treasury <==> TreasuryPlace(tx[i], p)
  {
    assert InstructionAllowed(tx, i, rules);
    assert tx[i].accounts[p].address == rules.treasury ==> Names(tx[i], rules.treasury);
  }
}
