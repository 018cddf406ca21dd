/** Building a confidential rent payment: the planner's tree of transactions is flattened, and `pay_rent` is
    put directly behind the confidential transfer (backend/src/rentpay.ts). */
module RentPay {
  import opened Basics
  import opened Transactions
  import opened RentShape

  /** The planner's result: one transaction, or several to run in order (whether it calls them sequential
      or parallel). */
  datatype Plan = Single(message: Transaction) | Several(plans: seq<Plan>)

  function Flatten(p: Plan): seq<Transaction>
    decreases p
  {
    match p
    case Single(m) => [m]
    case Several(ps) => FlattenAll(ps)
  }

  function FlattenAll(ps: seq<Plan>): seq<Transaction>
    decreases ps
  {
    if ps == [] then [] else Flatten(ps[0]) + FlattenAll(ps[1..])
  }

  /** The instructions of a plan in execution order, read off the tree itself. */
  function Walk(p: Plan): seq<Instruction>
    decreases p
  {
    match p
    case Single(m) => m
    case Several(ps) => WalkAll(ps)
  }

  function WalkAll(ps: seq<Plan>): seq<Instruction>
    decreases ps
  {
    if ps == [] then [] else Walk(ps[0]) + WalkAll(ps[1..])
  }

  lemma {:induction false} FlattenKeepsOrder(p: Plan)
    ensures Concat(Flatten(p)) == Walk(p)
    decreases p
  {
    match p
    case Single(m) => assert [m][1..] == [] && m + [] == m;
    case Several(ps) => FlattenAllKeepsOrder(ps);
  }

  lemma {:induction false} FlattenAllKeepsOrder(ps: seq<Plan>)
    ensures Concat(FlattenAll(ps)) == WalkAll(ps)
    decreases ps
  {
    if ps != [] {
      FlattenKeepsOrder(ps[0]);
      FlattenAllKeepsOrder(ps[1..]);
      ConcatJoins(Flatten(ps[0]), FlattenAll(ps[1..]));
    }
  }

  predicate HasTransfer(ixs: seq<Instruction>) {
    exists k :: 0 <= k < |ixs| && IsTransfer(ixs[k])
  }

  /** `after` is `before` with `rider` put behind instruction `at` of message `i`: the first transfer of the
      last message that has one. */
  ghost predicate Spliced(before: seq<Transaction>, after: seq<Transaction>, rider: seq<Instruction>, i: nat, at: nat) {
    && i < |before| && at < |before[i]|
    && IsTransfer(before[i][at]) && !HasTransfer(before[i][..at])
    && (forall j :: i < j < |before| ==> !HasTransfer(before[j]))
    && after == before[i := before[i][..at + 1] + rider + before[i][at + 1..]]
  }

  method FindTransfer(m: Transaction) returns (at: Option<nat>)
    ensures at.None? ==> !HasTransfer(m)
    ensures at.Some? ==> at.value < |m| && IsTransfer(m[at.value]) && !HasTransfer(m[..at.value])
  {
    for k := 0 to |m|
      invariant forall j :: 0 <= j < k ==> !IsTransfer(m[j])
    {
      if IsTransfer(m[k]) {
        return Some(k);
      }
    }
    return None;
  }

  /** Splices in place, or fails, leaving the list alone, when no message has a transfer. */
  method SpliceAfterTransfer(messages: array<Transaction>, rider: seq<Instruction>) returns (done: bool)
    modifies messages
    ensures done <==> exists j :: 0 <= j < messages.Length && HasTransfer(old(messages[j]))
    ensures done ==> exists i, at :: Spliced(old(messages[..]), messages[..], rider, i, at)
    ensures !done ==> messages[..] == old(messages[..])
  {
    for i := messages.Length downto 0
      invariant messages[..] == old(messages[..])
      invariant forall j :: i <= j < messages.Length ==> !HasTransfer(messages[j])
    {
      var at := FindTransfer(messages[i]);
      if at.Some? {
        ghost var before := messages[..];
        assert IsTransfer(before[i][at.value]);
        assert forall j :: i < j < |before| ==> before[j] == messages[j];
        messages[i] := messages[i][..at.value + 1] + rider + messages[i][at.value + 1..];
        assert messages[..] == before[i := before[i][..at.value + 1] + rider + before[i][at.value + 1..]];
        assert Spliced(before, messages[..], rider, i, at.value);
        assert HasTransfer(old(messages[i]));
        return true;
      }
    }
    return false;
  }

  // ---- what the splice does to the plan as a whole ----

  /** The number of transfers in a list of instructions. */
  function Transfers(ixs: seq<Instruction>): nat {
    if ixs == [] then 0 else (if IsTransfer(ixs[0]) then 1 else 0) + Transfers(ixs[1..])
  }

  lemma {:induction false} TransfersJoin(a: seq<Instruction>, b: seq<Instruction>)
    ensures Transfers(a + b) == Transfers(a) + Transfers(b)
  {
    if a == [] {
      assert a + b == b;
    } else {
      assert (a + b)[1..] == a[1..] + b;
      TransfersJoin(a[1..], b);
    }
  }

  lemma {:induction false} NoTransfers(ixs: seq<Instruction>)
    ensures Transfers(ixs) == 0 <==> !HasTransfer(ixs)
  {
    if ixs != [] {
      NoTransfers(ixs[1..]);
      if HasTransfer(ixs) {
        var k :| 0 <= k < |ixs| && IsTransfer(ixs[k]);
        assert k > 0 ==> IsTransfer(ixs[1..][k - 1]);
      }
      if HasTransfer(ixs[1..]) {
        var k :| 0 <= k < |ixs[1..]| && IsTransfer(ixs[1..][k]);
        assert IsTransfer(ixs[k + 1]);
      }
    }
  }

  lemma ConcatAt(ms: seq<Transaction>, i: nat, m: Transaction)
    requires i < |ms|
    ensures Concat(ms[i := m]) == Concat(ms[..i]) + m + Concat(ms[i + 1..])
  {
    assert ms[i := m] == ms[..i] + ([m] + ms[i + 1..]);
    ConcatJoins(ms[..i], [m] + ms[i + 1..]);
    assert ([m] + ms[i + 1..])[1..] == ms[i + 1..];
    assert Concat(ms[..i]) + (m + Concat(ms[i + 1..])) == Concat(ms[..i]) + m + Concat(ms[i + 1..]);
  }

  lemma ThreeParts(a: seq<Instruction>, m: Transaction, z: seq<Instruction>, rider: seq<Instruction>, at: nat)
    requires at < |m|
    ensures var k := |a| + at; var all := a + m + z;
      && k < |all| && all[k] == m[at]
      && a + (m[..at + 1] + rider + m[at + 1..]) + z == all[..k + 1] + rider + all[k + 1..]
  {
    var k, all := |a| + at, a + m + z;
    assert all[..k + 1] == a + m[..at + 1];
    assert all[k + 1..] == m[at + 1..] + z;
  }

  /** The splice leaves every instruction of the plan in place and puts the rider directly behind a
      transfer: in execution order, the plan up to and including the transfer, the rider, the rest. */
  lemma SpliceKeepsOrder(p: Plan, after: seq<Transaction>, rider: seq<Instruction>, i: nat, at: nat)
    requires Spliced(Flatten(p), after, rider, i, at)
    ensures exists k: nat :: k < |Walk(p)| && IsTransfer(Walk(p)[k])
              && Concat(after) == Walk(p)[..k + 1] + rider + Walk(p)[k + 1..]
  {
    var before := Flatten(p);
    FlattenKeepsOrder(p);
    ConcatAt(before, i, before[i]);
    assert before[i := before[i]] == before;
    ConcatAt(before, i, before[i][..at + 1] + rider + before[i][at + 1..]);
    var a, z := Concat(before[..i]), Concat(before[i + 1..]);
    ThreeParts(a, before[i], z, rider, at);
    var k := |a| + at;
    assert IsTransfer(Walk(p)[k]);
  }

  lemma {:induction false} HasTransferSomewhere(ms: seq<Transaction>)
    ensures HasTransfer(Concat(ms)) <==> exists j :: 0 <= j < |ms| && HasTransfer(ms[j])
  {
    if ms != [] {
      HasTransferSomewhere(ms[1..]);
      NoTransfers(ms[0]);
      NoTransfers(Concat(ms[1..]));
      NoTransfers(Concat(ms));
      TransfersJoin(ms[0], Concat(ms[1..]));
      if j :| 0 <= j < |ms| && HasTransfer(ms[j]) {
        assert j > 0 ==> HasTransfer(ms[1..][j - 1]);
      }
      if j :| 0 <= j < |ms[1..]| && HasTransfer(ms[1..][j]) {
        assert HasTransfer(ms[j + 1]);
      }
    }
  }

  /** The splice fails exactly on the plans without a transfer. */
  lemma SpliceFailsExactly(p: Plan)
    ensures (exists j :: 0 <= j < |Flatten(p)| && HasTransfer(Flatten(p)[j])) <==> Transfers(Walk(p)) > 0
  {
    FlattenKeepsOrder(p);
    HasTransferSomewhere(Flatten(p));
    NoTransfers(Walk(p));
  }

  // ---- what the filter makes of a spliced pay_rent ----

  predicate CallsPayRent(ix: Instruction) {
    ix.program == RELSTATE_PROGRAM && ix.data == PAY_RENT_DISCRIMINATOR
  }

  /** A lone `pay_rent` rider always stands where the filter wants it, directly behind the transfer. */
  lemma RiderPassesAdjacency(before: seq<Transaction>, after: seq<Transaction>, rider: Instruction, i: nat, at: nat,
                             rules: Rules)
    requires Spliced(before, after, [rider], i, at)
    ensures at + 1 < |after[i]| && after[i][at + 1] == rider && IsTransfer(after[i][at])
    ensures PayRentAllowed(after[i], at + 1, rules) <==> PayRentFields(rider, rules)
  {
    assert after[i][..at + 1] == before[i][..at + 1];
    assert after[i][at] == before[i][at];
  }
}
