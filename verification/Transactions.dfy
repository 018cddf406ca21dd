/** A decoded transaction as the backend's checks see it: instructions in order, each with its program,
    its accounts and its data (backend/src/txinspect.ts). An instruction's `index` is its position. */
module Transactions {
  import opened Basics

  const SYSTEM_PROGRAM: Address := 0
  const RELSTATE_PROGRAM: Address := 0xdfd2cf3b20b9c5476184ee270f0f5bca5982bc6e12bcfd2ab0dde9e02d23af80
  const TOKEN_2022_PROGRAM: Address := 0x6ddf6e1ee758fde18425dbce46ccddab61afc4d83b90d27febdf928d8a18bfc
  const ASSOCIATED_TOKEN_PROGRAM: Address := 0x8c97258f4e2489f1bb3d1029148e0d830b5a1399daff1084048e7bd8dbe9f859
  const ZK_ELGAMAL_PROOF_PROGRAM: Address := 0x86375ace2aeea281a6b374d681ba76a53ccf638c07455936c05d06540000000
  const COMPUTE_BUDGET_PROGRAM: Address := 0x306466fe5211732ffecadba72c39be7bc8ce5bbc5f7126b2c439b3a40000000

  /** The first eight bytes of the SHA-256 of "global:pay_rent" and "global:submit_verdict". */
  const PAY_RENT_DISCRIMINATOR: Bytes := [69, 155, 112, 183, 178, 234, 94, 100]
  const SUBMIT_VERDICT_DISCRIMINATOR: Bytes := [138, 102, 56, 22, 229, 130, 105, 118]

  datatype Account = Account(address: Address, isSigner: bool, isWritable: bool)

  datatype Instruction = Instruction(program: Address, accounts: seq<Account>, data: Bytes) {
    /** The address in an account position, if there is one. */
    function At(position: nat): Option<Address> {
      if position < |accounts| then Some(accounts[position].address) else None
    }

    predicate Tagged(tag: byte) {
      |data| > 0 && data[0] == tag
    }
  }

  type Transaction = seq<Instruction>

  /** How many instructions call `program`. */
  function Calls(tx: Transaction, program: Address): nat {
    if tx == [] then 0 else Calls(tx[..|tx| - 1], program) + if tx[|tx| - 1].program == program then 1 else 0
  }

  lemma {:induction false} CallsFirst(tx: Transaction, program: Address)
    requires tx != []
    ensures Calls(tx, program) == (if tx[0].program == program then 1 else 0) + Calls(tx[1..], program)
  {
    if |tx| == 1 {
      assert tx[1..] == [] && tx[..0] == [];
    } else {
      CallsFirst(tx[..|tx| - 1], program);
      assert tx[..|tx| - 1][1..] == tx[1..][..|tx[1..]| - 1];
    }
  }

  lemma CallsMonotone(tx: Transaction, i: nat, program: Address)
    requires i <= |tx|
    ensures Calls(tx[..i], program) <= Calls(tx, program)
  {
    if i < |tx| {
      CallsMonotone(tx[..|tx| - 1], i, program);
      assert tx[..|tx| - 1][..i] == tx[..i];
    } else {
      assert tx[..i] == tx;
    }
  }
}
