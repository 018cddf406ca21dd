/** Where a sponsored transaction may name its fee payer (backend/src/txinspect.ts): nowhere, but for paying
    for the token account of the appraiser whose verdict is in the same transaction. */
module SponsorAta {
  import opened Basics
  import opened Transactions

  // Positions in submit_verdict's and CreateIdempotent's account lists.
  const VERDICT_APPRAISER := 0
  const VERDICT_MINT := 3
  const VERDICT_ATA := 8
  const VERDICT_TOKEN_PROGRAM := 11
  const ATA_CREATE_IDEMPOTENT: byte := 1
  const ATA_ACCOUNT_COUNT := 6

  predicate IsVerdict(ix: Instruction) {
    ix.program == RELSTATE_PROGRAM && |ix.data| >= 8 && ix.data[..8] == SUBMIT_VERDICT_DISCRIMINATOR
  }

  /** Instruction `v` is the transaction's one verdict, and its appraiser signs. */
  ghost predicate OnlyVerdict(tx: Transaction, v: nat) {
    && v < |tx| && IsVerdict(tx[v]) && (forall i :: 0 <= i < |tx| && IsVerdict(tx[i]) ==> i == v)
    && |tx[v].accounts| > 0 && tx[v].accounts[VERDICT_APPRAISER].isSigner
  }

  /** Instruction `i` creates, at the sponsor's expense and no other use of the sponsor, the token account the
      verdict `v` pays into: that of the appraiser who signs it. */
  predicate FundsVerdict(tx: Transaction, sponsor: Address, v: nat, i: nat)
    requires v < |tx| && i < |tx| && |tx[v].accounts| > 0
  {
    var ix, verdict := tx[i], tx[v];
    && ix.program == ASSOCIATED_TOKEN_PROGRAM && i < v && ix.data == [ATA_CREATE_IDEMPOTENT]
    && |ix.accounts| == ATA_ACCOUNT_COUNT
    && ix.accounts[0] == Account(sponsor, true, true)
    && (forall p :: 0 < p < ATA_ACCOUNT_COUNT ==> ix.accounts[p].address != sponsor)
    && ix.At(1) == verdict.At(VERDICT_ATA) && ix.At(2) == verdict.At(VERDICT_APPRAISER)
    && ix.At(3) == verdict.At(VERDICT_MINT)
    && ix.At(4) == Some(SYSTEM_PROGRAM) && ix.At(5) == verdict.At(VERDICT_TOKEN_PROGRAM)
  }

  /** Instruction `i` is exempt: it funds the one verdict, and no other instruction does. */
  ghost predicate Exempt(tx: Transaction, sponsor: Address, i: nat) {
    && i < |tx|
    && exists v: nat :: OnlyVerdict(tx, v) && FundsVerdict(tx, sponsor, v, i)
                        && forall j :: 0 <= j < |tx| && FundsVerdict(tx, sponsor, v, j) ==> j == i
  }

  // ---- finding the exempt instruction ----

  method FindVerdicts(tx: Transaction) returns (verdicts: seq<nat>)
    ensures forall i: nat :: i in verdicts <==> i < |tx| && IsVerdict(tx[i])
    ensures forall a, b :: 0 <= a < b < |verdicts| ==> verdicts[a] < verdicts[b]
  {
    verdicts := [];
    for k := 0 to |tx|
      invariant forall i: nat :: i in verdicts <==> i < k && IsVerdict(tx[i])
      invariant forall a, b :: 0 <= a < b < |verdicts| ==> verdicts[a] < verdicts[b]
      invariant forall a :: 0 <= a < |verdicts| ==> verdicts[a] < k
    {
      if IsVerdict(tx[k]) {
        verdicts := verdicts + [k];
      }
    }
  }

  /** The tests on one create instruction, in the program's order. */
  method Matches(tx: Transaction, sponsor: Address, v: nat, i: nat) returns (ok: bool)
    requires v < |tx| && i < |tx| && |tx[v].accounts| > 0
    ensures ok <==> FundsVerdict(tx, sponsor, v, i)
  {
    var ix, verdict := tx[i], tx[v];
    if ix.program != ASSOCIATED_TOKEN_PROGRAM { return false; }
    if i >= v { return false; }
    if |ix.data| != 1 || ix.data[0] != ATA_CREATE_IDEMPOTENT { return false; }
    if |ix.accounts| != ATA_ACCOUNT_COUNT { return false; }
    var payer := ix.accounts[0];
    if payer.address != sponsor || !payer.isSigner || !payer.isWritable { return false; }
    for p := 1 to ATA_ACCOUNT_COUNT
      invariant forall q :: 0 < q < p ==> ix.accounts[q].address != sponsor
    {
      if ix.accounts[p].address == sponsor { return false; }
    }
    if ix.At(1) != verdict.At(VERDICT_ATA) { return false; }
    if ix.At(2) != verdict.At(VERDICT_APPRAISER) { return false; }
    if ix.At(3) != verdict.At(VERDICT_MINT) { return false; }
    if ix.At(4) != Some(SYSTEM_PROGRAM) { return false; }
    if ix.At(5) != verdict.At(VERDICT_TOKEN_PROGRAM) { return false; }
    return true;
  }

  method SponsorFundedAtaInstructions(tx: Transaction, sponsor: Address) returns (exempt: set<nat>)
    ensures forall i: nat :: i in exempt <==> Exempt(tx, sponsor, i)
    ensures |exempt| <= 1
  {
    var verdicts := FindVerdicts(tx);
    if |verdicts| != 1 {
      NotOne(tx, verdicts);
      return {};
    }
    var v := verdicts[0];
    assert v in verdicts && forall i: nat :: i in verdicts ==> i == v;
    if |tx[v].accounts| == 0 || !tx[v].accounts[VERDICT_APPRAISER].isSigner {
      assert forall w: nat :: OnlyVerdict(tx, w) ==> w in verdicts;
      return {};
    }
    assert OnlyVerdict(tx, v);
    exempt := {};
    for k := 0 to |tx|
      invariant forall i: nat :: i in exempt <==> i < k && FundsVerdict(tx, sponsor, v, i)
    {
      var found := Matches(tx, sponsor, v, k);
      if found {
        exempt := exempt + {k};
      }
    }
    ExemptIsTheOne(tx, sponsor, v, exempt);
    if |exempt| > 1 {
      exempt := {};
    }
  }

  lemma NotOne(tx: Transaction, verdicts: seq<nat>)
    requires |verdicts| != 1 && forall i: nat :: i in verdicts <==> i < |tx| && IsVerdict(tx[i])
    requires forall a, b :: 0 <= a < b < |verdicts| ==> verdicts[a] < verdicts[b]
    ensures forall v: nat :: !OnlyVerdict(tx, v)
  {
    forall v: nat ensures !OnlyVerdict(tx, v) {
      if v < |tx| && IsVerdict(tx[v]) {
        assert v in verdicts;
        assert verdicts[0] in verdicts && verdicts[|verdicts| - 1] in verdicts
          && verdicts[0] < verdicts[|verdicts| - 1];
      }
    }
  }

  lemma ExemptIsTheOne(tx: Transaction, sponsor: Address, v: nat, funding: set<nat>)
    requires OnlyVerdict(tx, v) && forall i: nat :: i in funding <==> i < |tx| && FundsVerdict(tx, sponsor, v, i)
    ensures |funding| <= 1 ==> forall i: nat :: i in funding <==> Exempt(tx, sponsor, i)
    ensures |funding| > 1 ==> forall i: nat :: !Exempt(tx, sponsor, i)
  {
    forall i: nat, j: nat | i in funding && j in funding && |funding| <= 1 ensures i == j {
      if i != j {
        assert {i, j} <= funding;
        Larger({i, j}, funding);
      }
    }
    forall i: nat | Exempt(tx, sponsor, i) ensures funding == {i} {
      assert forall j :: j in funding ==> j == i;
    }
  }

  lemma Larger(a: set<nat>, b: set<nat>)
    requires a <= b
    ensures |a| <= |b|
  {
    assert b == a + (b - a);
  }

  // ---- the check ----

  datatype Refusal = SponsorAsProgram(index: nat) | SponsorInInstruction(index: nat, position: nat)

  /** The sponsor calls nothing, and stands in no instruction that is not exempt. */
  ghost predicate SponsorUnused(tx: Transaction, sponsor: Address, n: nat) {
    forall i :: 0 <= i < n && i < |tx| ==>
      && tx[i].program != sponsor
      && (Exempt(tx, sponsor, i) || forall p :: 0 <= p < |tx[i].accounts| ==> tx[i].accounts[p].address != sponsor)
  }

  method FindSponsor(ix: Instruction, sponsor: Address) returns (at: Option<nat>)
    ensures at.None? ==> forall p :: 0 <= p < |ix.accounts| ==> ix.accounts[p].address != sponsor
    ensures at.Some? ==> at.value < |ix.accounts| && ix.accounts[at.value].address == sponsor
  {
    for p := 0 to |ix.accounts|
      invariant forall q :: 0 <= q < p ==> ix.accounts[q].address != sponsor
    {
      if ix.accounts[p].address == sponsor {
        return Some(p);
      }
    }
    return None;
  }

  method AssertSponsorNotUsedByInstructions(tx: Transaction, sponsor: Address) returns (bad: Option<Refusal>)
    ensures bad.None? <==> SponsorUnused(tx, sponsor, |tx|)
    ensures bad.Some? ==>
      bad.value.index < |tx| && SponsorUnused(tx, sponsor, bad.value.index)
      && !SponsorUnused(tx, sponsor, bad.value.index + 1)
  {
    var exempt := SponsorFundedAtaInstructions(tx, sponsor);
    hide Exempt;
    for i := 0 to |tx|
      invariant SponsorUnused(tx, sponsor, i)
    {
      if tx[i].program == sponsor {
        return Some(SponsorAsProgram(i));
      }
      if i !in exempt {
        var at := FindSponsor(tx[i], sponsor);
        if at.Some? {
          assert !SponsorUnused(tx, sponsor, i + 1);
          return Some(SponsorInInstruction(i, at.value));
        }
      }
    }
    return None;
  }

  // ---- what an accepted transaction can make the sponsor do ----

  lemma AtMostOneExempt(tx: Transaction, sponsor: Address, i: nat, j: nat)
    requires Exempt(tx, sponsor, i) && Exempt(tx, sponsor, j)
    ensures i == j
  {
    var v: nat :| OnlyVerdict(tx, v) && FundsVerdict(tx, sponsor, v, i)
             && forall k :: 0 <= k < |tx| && FundsVerdict(tx, sponsor, v, k) ==> k == i;
    var w: nat :| OnlyVerdict(tx, w) && FundsVerdict(tx, sponsor, w, j)
             && forall k :: 0 <= k < |tx| && FundsVerdict(tx, sponsor, w, k) ==> k == j;
    assert v == w;
  }

  /** In an accepted transaction the fee payer occurs at most once in all account lists together: as the
      payer of an idempotent create that stands before the only verdict, for the account, mint and token
      program that verdict names and the appraiser who signs it. That appraiser is someone else. */
  lemma FeePayerOccursOnce(tx: Transaction, sponsor: Address, i: nat, p: nat)
    requires SponsorUnused(tx, sponsor, |tx|) && i < |tx| && p < |tx[i].accounts|
      && tx[i].accounts[p].address == sponsor
    ensures p == 0 && tx[i].program == ASSOCIATED_TOKEN_PROGRAM && tx[i].data == [ATA_CREATE_IDEMPOTENT]
      && |tx[i].accounts| == 6
    ensures exists v: nat :: i < v && OnlyVerdict(tx, v)
              && tx[v].accounts[0].isSigner && tx[v].accounts[0].address != sponsor
              && tx[i].At(1) == tx[v].At(8) && tx[i].At(2) == tx[v].At(0) && tx[i].At(3) == tx[v].At(3)
              && tx[i].At(4) == Some(SYSTEM_PROGRAM) && tx[i].At(5) == tx[v].At(11)
    ensures forall j, q :: 0 <= j < |tx| && 0 <= q < |tx[j].accounts| && tx[j].accounts[q].address == sponsor ==>
      j == i && q == p
  {
    assert Exempt(tx, sponsor, i);
    var v: nat :| OnlyVerdict(tx, v) && FundsVerdict(tx, sponsor, v, i)
             && forall k :: 0 <= k < |tx| && FundsVerdict(tx, sponsor, v, k) ==> k == i;
    assert p == 0;
    assert tx[i].accounts[2].address == tx[v].accounts[0].address;
    forall j, q | 0 <= j < |tx| && 0 <= q < |tx[j].accounts| && tx[j].accounts[q].address == sponsor
      ensures j == i && q == p {
      assert Exempt(tx, sponsor, j);
      AtMostOneExempt(tx, sponsor, i, j);
    }
  }
}
