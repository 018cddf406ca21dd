/** The after-the-fact check of a confidential rent payment (backend/src/confidential.ts): which transfer a
    `pay_rent` is paired with, and whether the amount it moved is the rent. */
module RentAudit {
  import opened Basics
  import opened Transactions
  import opened RentShape
  import opened RentPay

  // ---- the amount ----

  const HALF := 65_536

  function RecombineLoHi(lo: nat, hi: nat): nat {
    lo + hi * HALF
  }

  /** The halves of an amount: its low 16 bits, and the rest. */
  function SplitLoHi(amount: nat): (nat, nat) {
    (amount % HALF, amount / HALF)
  }

  /** Recombining undoes the split, and nothing else splits into the same halves. */
  lemma RecombineUndoesSplit(amount: nat, lo: nat, hi: nat)
    requires lo < HALF
    ensures RecombineLoHi(SplitLoHi(amount).0, SplitLoHi(amount).1) == amount
    ensures SplitLoHi(RecombineLoHi(lo, hi)) == (lo, hi)
  {
  }

  // ---- reading transfers out of a transaction ----

  /** What the auditor's key makes of the two ciphertexts in a transfer's data; None when they are not
      valid. Cryptography is not part of this model. */
  type Decrypt = Bytes -> Option<(nat, nat)>

  datatype Audited = Audited(index: nat, sourceToken: Address, mint: Address, destinationToken: Address, amount: nat)

  /** A transfer the auditor can read: three accounts, and ciphertexts that decrypt. */
  predicate Readable(ix: Instruction, decrypt: Decrypt) {
    |ix.accounts| >= 3 && decrypt(ix.data).Some?
  }

  function Read(tx: Transaction, i: nat, decrypt: Decrypt): Audited
    requires i < |tx| && Readable(tx[i], decrypt)
  {
    var halves := decrypt(tx[i].data).value;
    Audited(i, tx[i].accounts[0].address, tx[i].accounts[1].address, tx[i].accounts[2].address,
      RecombineLoHi(halves.0, halves.1))
  }

  /** Every transfer of the transaction in order, or an error if one cannot be read. */
  method AuditTransaction(tx: Transaction, decrypt: Decrypt) returns (found: Option<seq<Audited>>)
    ensures found.Some? <==> AllReadable(tx, decrypt)
    ensures found.Some? ==> forall a :: a in found.value <==>
              a.index < |tx| && IsTransfer(tx[a.index]) && Readable(tx[a.index], decrypt)
                && a == Read(tx, a.index, decrypt)
    ensures found.Some? ==> forall j, k :: 0 <= j < k < |found.value| ==> found.value[j].index < found.value[k].index
  {
    var all: seq<Audited> := [];
    for i := 0 to |tx|
      invariant forall j :: 0 <= j < i && IsTransfer(tx[j]) ==> Readable(tx[j], decrypt)
      invariant forall a :: a in all <==>
                  a.index < i && IsTransfer(tx[a.index]) && Readable(tx[a.index], decrypt)
                    && a == Read(tx, a.index, decrypt)
      invariant forall k :: 0 <= k < |all| ==> all[k].index < i
      invariant forall j, k :: 0 <= j < k < |all| ==> all[j].index < all[k].index
    {
      if IsTransfer(tx[i]) {
        if |tx[i].accounts| < 3 || decrypt(tx[i].data) == None {
          assert !Readable(tx[i], decrypt);
          return None;
        }
        all := all + [Read(tx, i, decrypt)];
      }
    }
    return Some(all);
  }

  method FindPayRent(tx: Transaction) returns (at: Option<nat>)
    ensures FirstPayRent(tx, at)
  {
    for i := 0 to |tx|
      invariant forall j :: 0 <= j < i ==> !CallsPayRent(tx[j])
    {
      if CallsPayRent(tx[i]) {
        return Some(i);
      }
    }
    return None;
  }

  ghost predicate FirstPayRent(tx: Transaction, at: Option<nat>) {
    match at
    case None => forall j :: 0 <= j < |tx| ==> !CallsPayRent(tx[j])
    case Some(i) => i < |tx| && CallsPayRent(tx[i]) && forall j :: 0 <= j < i ==> !CallsPayRent(tx[j])
  }

  // ---- the check ----

  datatype Miss = NoPayRent | PayRentFirst | OtherLease | NoTransferBefore | AmountDiffers

  datatype Check = Check(lease: Option<Address>, settled: Option<Audited>, miss: Option<Miss>)

  ghost predicate AllReadable(tx: Transaction, decrypt: Decrypt) {
    forall i :: 0 <= i < |tx| && IsTransfer(tx[i]) ==> Readable(tx[i], decrypt)
  }

  /** What is answered when the first pay_rent is at `at`; None is an error. Nothing is read, let alone
      decrypted, when that pay_rent is for another lease than the one asked about. */
  ghost function Answer(tx: Transaction, at: Option<nat>, expectedAmount: nat, expectedLease: Option<Address>,
                        decrypt: Decrypt): Option<Check>
    requires FirstPayRent(tx, at)
  {
    match at
    case None => Some(Check(None, None, Some(NoPayRent)))
    case Some(p) =>
      var lease := tx[p].At(1);
      if p == 0 then Some(Check(lease, None, Some(PayRentFirst)))
      else if expectedLease.Some? && lease != expectedLease then Some(Check(lease, None, Some(OtherLease)))
      else if !AllReadable(tx, decrypt) then None
      else if !IsTransfer(tx[p - 1]) then Some(Check(lease, None, Some(NoTransferBefore)))
      else
        var paired := Read(tx, p - 1, decrypt);
        Some(Check(lease, Some(paired), if paired.amount == expectedAmount then None else Some(AmountDiffers)))
  }

  method VerifyRentPayment(tx: Transaction, expectedAmount: nat, expectedLease: Option<Address>, decrypt: Decrypt)
      returns (check: Option<Check>)
    ensures exists at :: FirstPayRent(tx, at) && check == Answer(tx, at, expectedAmount, expectedLease, decrypt)
  {
    var at := FindPayRent(tx);
    assert FirstPayRent(tx, at);
    if at == None {
      return Some(Check(None, None, Some(NoPayRent)));
    }
    var p := at.value;
    var lease := tx[p].At(1);
    if p == 0 {
      return Some(Check(lease, None, Some(PayRentFirst)));
    }
    if expectedLease.Some? && lease != expectedLease {
      return Some(Check(lease, None, Some(OtherLease)));
    }
    var transfers := AuditTransaction(tx, decrypt);
    if transfers == None {
      return None;
    }
    var paired := FindPaired(transfers.value, p - 1);
    TransferFound(tx, decrypt, transfers.value, p - 1, paired);
    if paired == None {
      return Some(Check(lease, None, Some(NoTransferBefore)));
    }
    return Some(Check(lease, paired, if paired.value.amount == expectedAmount then None else Some(AmountDiffers)));
  }

  /** Looking an index up among the transfers read is looking at that instruction. */
  lemma TransferFound(tx: Transaction, decrypt: Decrypt, found: seq<Audited>, k: nat, paired: Option<Audited>)
    requires AllReadable(tx, decrypt) && k < |tx|
    requires forall a :: a in found <==>
               a.index < |tx| && IsTransfer(tx[a.index]) && Readable(tx[a.index], decrypt)
                 && a == Read(tx, a.index, decrypt)
    requires paired.Some? ==> paired.value in found && paired.value.index == k
    requires paired.None? ==> forall a :: a in found ==> a.index != k
    ensures if IsTransfer(tx[k]) then paired == Some(Read(tx, k, decrypt)) else paired == None
  {
    if IsTransfer(tx[k]) {
      assert Read(tx, k, decrypt) in found;
    }
  }

  /** A payment checks out exactly when it settles: the transaction's first pay_rent is for the lease asked
      about, and the transfer directly before it moved the expected amount; and a transfer reported as
      settled is always the one directly before that pay_rent. */
  lemma AnswerMeans(tx: Transaction, at: Option<nat>, expectedAmount: nat, expectedLease: Option<Address>,
                    decrypt: Decrypt)
    requires FirstPayRent(tx, at)
    ensures var check := Answer(tx, at, expectedAmount, expectedLease, decrypt);
      && (check.Some? && check.value.miss == None <==>
           Settles(tx, expectedAmount, expectedLease, decrypt) && AllReadable(tx, decrypt))
      && (check.Some? && check.value.settled.Some? ==>
            at.Some? && Pairs(tx, at.value) && Readable(tx[at.value - 1], decrypt)
              && check.value.settled.value == Read(tx, at.value - 1, decrypt))
  {
    forall p: nat | Pairs(tx, p) ensures at == Some(p) {
    }
    if at.Some? && at.value > 0 && IsTransfer(tx[at.value - 1]) && AllReadable(tx, decrypt) {
      assert Pairs(tx, at.value) && Readable(tx[at.value - 1], decrypt);
    }
  }

  method FindPaired(found: seq<Audited>, index: nat) returns (paired: Option<Audited>)
    ensures paired.Some? ==> paired.value in found && paired.value.index == index
    ensures paired.None? ==> forall a :: a in found ==> a.index != index
  {
    for k := 0 to |found|
      invariant forall j :: 0 <= j < k ==> found[j].index != index
    {
      if found[k].index == index {
        return Some(found[k]);
      }
    }
    return None;
  }

  /** The first pay_rent at `p` is paired with the transfer directly before it. */
  ghost predicate Pairs(tx: Transaction, p: nat) {
    FirstPayRent(tx, Some(p)) && p > 0 && IsTransfer(tx[p - 1])
  }

  /** The transaction's first pay_rent is for the lease asked about, and the transfer directly before it
      moved the expected amount. */
  ghost predicate Settles(tx: Transaction, expectedAmount: nat, expectedLease: Option<Address>, decrypt: Decrypt) {
    exists p: nat :: Pairs(tx, p) && (expectedLease.Some? ==> tx[p].At(1) == expectedLease)
                && Readable(tx[p - 1], decrypt) && Read(tx, p - 1, decrypt).amount == expectedAmount
  }

  // ---- producer, filter and auditor agree ----

  lemma TwoCalls(tx: Transaction, i: nat, j: nat)
    requires i < j < |tx| && tx[i].program == tx[j].program
    ensures Calls(tx, tx[i].program) >= 2
  {
    var p := tx[i].program;
    CallsMonotone(tx, j + 1, p);
    assert tx[..j + 1][..j] == tx[..j];
    CallsMonotone(tx[..j], i + 1, p);
    assert tx[..j][..i + 1] == tx[..i + 1] && tx[..i + 1][..i] == tx[..i];
  }

  lemma OnlyPayRent(tx: Transaction, rules: Rules, i: nat, j: nat)
    requires Allowed(tx, rules) && i < j < |tx| && tx[i].program == RELSTATE_PROGRAM
    ensures tx[j].program != RELSTATE_PROGRAM
  {
    assert tx[..|tx|] == tx;
    assert Calls(tx, RELSTATE_PROGRAM) <= 1;
    if tx[j].program == RELSTATE_PROGRAM {
      TwoCalls(tx, i, j);
    }
  }

  /** In every transaction the filter lets through, the auditor pairs the pay_rent with the transfer that
      the filter found before it. */
  lemma FilterAgreesWithAuditor(tx: Transaction, rules: Rules, p: nat)
    requires Allowed(tx, rules) && p < |tx| && tx[p].program == RELSTATE_PROGRAM
    ensures Pairs(tx, p)
  {
    assert InstructionAllowed(tx, p, rules);
    forall j | 0 <= j < p ensures !CallsPayRent(tx[j]) {
      if tx[j].program == RELSTATE_PROGRAM {
        OnlyPayRent(tx, rules, j, p);
      }
    }
  }

  lemma {:induction false} NoPayRentIn(ms: seq<Transaction>, i: nat, k: nat)
    requires i < |ms| && k < |ms[i]| && forall ix :: ix in Concat(ms) ==> !CallsPayRent(ix)
    ensures !CallsPayRent(ms[i][k])
  {
    if i == 0 {
      assert ms[0][k] in ms[0];
    } else {
      assert forall ix :: ix in Concat(ms[1..]) ==> ix in Concat(ms);
      NoPayRentIn(ms[1..], i - 1, k);
    }
  }

  /** Splicing a lone pay_rent into a plan that has none: the auditor finds it in the spliced message,
      and pairs it with the transfer it was put behind. With one transfer in the plan, it is that one. */
  lemma SplicedRiderIsPaired(p: Plan, after: seq<Transaction>, rider: Instruction, i: nat, at: nat)
    requires Spliced(Flatten(p), after, [rider], i, at) && CallsPayRent(rider)
    requires forall ix :: ix in Walk(p) ==> !CallsPayRent(ix)
    ensures Pairs(after[i], at + 1) && after[i][at] == Flatten(p)[i][at]
    ensures forall j :: 0 <= j < |after| && j != i ==> FirstPayRent(after[j], None)
    ensures Transfers(Walk(p)) == 1 ==> forall j, k ::
      0 <= j < |Flatten(p)| && 0 <= k < |Flatten(p)[j]| && IsTransfer(Flatten(p)[j][k]) ==> j == i && k == at
  {
    var before := Flatten(p);
    FlattenKeepsOrder(p);
    assert after[i][at + 1] == rider && after[i][at] == before[i][at];
    forall k | 0 <= k < at + 1 ensures !CallsPayRent(after[i][k]) {
      assert after[i][k] == before[i][k];
      NoPayRentIn(before, i, k);
    }
    forall j, k | 0 <= j < |after| && j != i && 0 <= k < |after[j]| ensures !CallsPayRent(after[j][k]) {
      assert after[j] == before[j];
      NoPayRentIn(before, j, k);
    }
    if Transfers(Walk(p)) == 1 {
      forall j, k | 0 <= j < |before| && 0 <= k < |before[j]| && IsTransfer(before[j][k]) ensures j == i && k == at {
        OneTransfer(before, i, at, j, k);
      }
    }
  }

  /** Position `k` of message `j`, counted over the whole list. */
  function Position(ms: seq<Transaction>, j: nat, k: nat): nat
    requires j < |ms|
  {
    |Concat(ms[..j])| + k
  }

  lemma AtPosition(ms: seq<Transaction>, j: nat, k: nat)
    requires j < |ms| && k < |ms[j]|
    ensures Position(ms, j, k) < |Concat(ms)| && Concat(ms)[Position(ms, j, k)] == ms[j][k]
  {
    ConcatAt(ms, j, ms[j]);
    assert ms[j := ms[j]] == ms;
  }

  lemma PositionsOrdered(ms: seq<Transaction>, i: nat, n: nat, j: nat, k: nat)
    requires i < j < |ms| && n < |ms[i]|
    ensures Position(ms, i, n) < Position(ms, j, k)
  {
    ConcatAt(ms[..j], i, ms[i]);
    assert ms[..j][i := ms[i]] == ms[..j] && ms[..j][..i] == ms[..i];
  }

  lemma OneTransfer(ms: seq<Transaction>, i: nat, at: nat, j: nat, k: nat)
    requires Transfers(Concat(ms)) == 1
    requires i < |ms| && at < |ms[i]| && IsTransfer(ms[i][at])
    requires j < |ms| && k < |ms[j]| && IsTransfer(ms[j][k])
    ensures j == i && k == at
  {
    AtPosition(ms, i, at);
    AtPosition(ms, j, k);
    var x, y := Position(ms, i, at), Position(ms, j, k);
    if i < j {
      PositionsOrdered(ms, i, at, j, k);
    } else if j < i {
      PositionsOrdered(ms, j, k, i, at);
    }
    if x < y {
      TwoTransfers(Concat(ms), x, y);
    } else if y < x {
      TwoTransfers(Concat(ms), y, x);
    }
  }

  lemma TwoTransfers(ixs: seq<Instruction>, x: nat, y: nat)
    requires x < y < |ixs| && IsTransfer(ixs[x]) && IsTransfer(ixs[y])
    ensures Transfers(ixs) >= 2
  {
    TransfersJoin(ixs[..y], ixs[y..]);
    assert ixs[..y] + ixs[y..] == ixs;
    NoTransfers(ixs[..y]);
    NoTransfers(ixs[y..]);
    assert IsTransfer(ixs[..y][x]) && IsTransfer(ixs[y..][0]);
  }
}
