/** Reading a lease account (backend/src/lease.ts) under whatever layout the IDL gives it. */
module LeaseRecord {
  import opened Basics
  import opened Layout
  import opened AccountData

  /** The first eight bytes of the SHA-256 of "account:Lease". */
  const DISCRIMINATOR: Bytes := [14, 103, 218, 61, 248, 234, 105, 84]

  datatype LeaseStatus = Proposed | Active | Closed | Defaulted | Disputed | Mediation

  const STATUSES: seq<LeaseStatus> := [Proposed, Active, Closed, Defaulted, Disputed, Mediation]

  function StatusByte(s: LeaseStatus): (b: byte)
    ensures b < |STATUSES| && STATUSES[b] == s
  {
    match s
    case Proposed => 0
    case Active => 1
    case Closed => 2
    case Defaulted => 3
    case Disputed => 4
    case Mediation => 5
  }

  datatype Lease = Lease(landlord: Address, tenant: Address, mint: Address, leaseId: nat, rentAmount: nat,
                   depositAmount: nat,
                         startTs: int, termPeriods: nat, paidCount: nat, status: LeaseStatus)

  function Decode(data: Bytes, layout: Layout): Result<Lease, DecodeError> {
    if |data| != layout.size then Failure(WrongSize)
    else if |data| < DISCRIMINATOR_LENGTH || data[..DISCRIMINATOR_LENGTH] != DISCRIMINATOR then Failure(NotThisAccount)
    else
      var status :- ReadBytes(data, layout, "status", 1);
      if status[0] >= |STATUSES| then Failure(UnknownStatus(status[0]))
      else
        var landlord :- ReadAddress(data, layout, "landlord");
        var tenant :- ReadAddress(data, layout, "tenant");
        var mint :- ReadAddress(data, layout, "mint");
        var leaseId :- ReadNat(data, layout, "lease_id", 8);
        var rentAmount :- ReadNat(data, layout, "rent_amount", 8);
        var depositAmount :- ReadNat(data, layout, "deposit_amount", 8);
        var startTs :- ReadInt64(data, layout, "start_ts");
        var termPeriods :- ReadNat(data, layout, "term_periods", 2);
        var paidCount :- ReadNat(data, layout, "paid_count", 2);
        Success(Lease(landlord, tenant, mint, leaseId, rentAmount, depositAmount, startTs, termPeriods, paidCount,
          STATUSES[status[0]]))
  }

  /** What an account can hold. */
  predicate InRange(l: Lease) {
    && l.landlord < Pow256(32) && l.tenant < Pow256(32) && l.mint < Pow256(32)
    && l.leaseId < Pow256(8) && l.rentAmount < Pow256(8) && l.depositAmount < Pow256(8)
    && -TWO_63 <= l.startTs < TWO_63 && l.termPeriods < Pow256(2) && l.paidCount < Pow256(2)
  }

  /** The fields this reader knows, with their bytes for a lease. */
  function Contents(l: Lease): map<string, Bytes>
    requires InRange(l)
  {
    map["landlord" := ToBigEndian(l.landlord, 32), "tenant" := ToBigEndian(l.tenant, 32),
      "mint" := ToBigEndian(l.mint, 32),
        "lease_id" := ToLittleEndian(l.leaseId, 8), "rent_amount" := ToLittleEndian(l.rentAmount, 8),
        "deposit_amount" := ToLittleEndian(l.depositAmount, 8), "start_ts" := ToLittleEndian(Unsigned(l.startTs), 8),
        "term_periods" := ToLittleEndian(l.termPeriods, 2), "paid_count" := ToLittleEndian(l.paidCount, 2),
        "status" := [StatusByte(l.status)]]
  }

  /** The account holds the bytes of lease `l`. */
  predicate Represents(data: Bytes, layout: Layout, l: Lease)
    requires InRange(l)
  {
    && |data| == layout.size && DISCRIMINATOR_LENGTH <= |data| && data[..DISCRIMINATOR_LENGTH] == DISCRIMINATOR
    && Holds(data, layout, "landlord", ToBigEndian(l.landlord, 32))
    && Holds(data, layout, "tenant", ToBigEndian(l.tenant, 32))
    && Holds(data, layout, "mint", ToBigEndian(l.mint, 32))
    && Holds(data, layout, "lease_id", ToLittleEndian(l.leaseId, 8))
    && Holds(data, layout, "rent_amount", ToLittleEndian(l.rentAmount, 8))
    && Holds(data, layout, "deposit_amount", ToLittleEndian(l.depositAmount, 8))
    && Holds(data, layout, "start_ts", ToLittleEndian(Unsigned(l.startTs), 8))
    && Holds(data, layout, "term_periods", ToLittleEndian(l.termPeriods, 2))
    && Holds(data, layout, "paid_count", ToLittleEndian(l.paidCount, 2))
    && Holds(data, layout, "status", [StatusByte(l.status)])
  }

  lemma StatusReads(data: Bytes, layout: Layout, s: LeaseStatus)
    ensures Holds(data, layout, "status", [StatusByte(s)]) <==>
            var r := ReadBytes(data, layout, "status", 1);
              r.Success? && r.value[0] < |STATUSES| && STATUSES[r.value[0]] == s
  {
    var r := ReadBytes(data, layout, "status", 1);
    ReadsBytes(data, layout, "status", [StatusByte(s)]);
    if r.Success? {
      assert r.value == [r.value[0]];
    }
  }

  /** What `Decode` reads, field by field. */
  lemma Reads(data: Bytes, layout: Layout, l: Lease)
    ensures Decode(data, layout) == Success(l) <==>
      && |data| == layout.size && DISCRIMINATOR_LENGTH <= |data| && data[..DISCRIMINATOR_LENGTH] == DISCRIMINATOR
      && ReadAddress(data, layout, "landlord") == Success(l.landlord)
      && ReadAddress(data, layout, "tenant") == Success(l.tenant)
      && ReadAddress(data, layout, "mint") == Success(l.mint)
      && ReadNat(data, layout, "lease_id", 8) == Success(l.leaseId)
      && ReadNat(data, layout, "rent_amount", 8) == Success(l.rentAmount)
      && ReadNat(data, layout, "deposit_amount", 8) == Success(l.depositAmount)
      && ReadInt64(data, layout, "start_ts") == Success(l.startTs)
      && ReadNat(data, layout, "term_periods", 2) == Success(l.termPeriods)
      && ReadNat(data, layout, "paid_count", 2) == Success(l.paidCount)
      && (var r := ReadBytes(data, layout, "status", 1);
           r.Success? && r.value[0] < |STATUSES| && STATUSES[r.value[0]] == l.status)
  {
    hide ReadAddress, ReadNat, ReadInt64, ReadBytes;
  }

  /** Every lease that comes out of an account could have been written there. */
  lemma DecodedInRange(data: Bytes, layout: Layout)
    requires Decode(data, layout).Success?
    ensures InRange(Decode(data, layout).value)
  {
    hide Decode, ReadAddress, ReadNat, ReadInt64, ReadBytes, Pow256;
    Reads(data, layout, Decode(data, layout).value);
    ReadFits(data, layout, "landlord", 0);
    ReadFits(data, layout, "tenant", 0);
    ReadFits(data, layout, "mint", 0);
    ReadFits(data, layout, "lease_id", 8);
    ReadFits(data, layout, "rent_amount", 8);
    ReadFits(data, layout, "deposit_amount", 8);
    ReadFits(data, layout, "start_ts", 8);
    ReadFits(data, layout, "term_periods", 2);
    ReadFits(data, layout, "paid_count", 2);
  }

  lemma DecodesInRange(data: Bytes, layout: Layout, l: Lease)
    requires InRange(l)
    ensures Decode(data, layout) == Success(l) <==> Represents(data, layout, l)
  {
    Reads(data, layout, l);
    hide Decode, ReadAddress, ReadNat, ReadInt64, ReadBytes, Holds, ToLittleEndian, ToBigEndian, Unsigned, Pow256,
      StatusByte;
    ReadsAddress(data, layout, "landlord", l.landlord);
    ReadsAddress(data, layout, "tenant", l.tenant);
    ReadsAddress(data, layout, "mint", l.mint);
    ReadsNat(data, layout, "lease_id", 8, l.leaseId);
    ReadsNat(data, layout, "rent_amount", 8, l.rentAmount);
    ReadsNat(data, layout, "deposit_amount", 8, l.depositAmount);
    ReadsInt64(data, layout, "start_ts", l.startTs);
    ReadsNat(data, layout, "term_periods", 2, l.termPeriods);
    ReadsNat(data, layout, "paid_count", 2, l.paidCount);
    StatusReads(data, layout, l.status);
  }

  /** Decoding succeeds with a lease exactly when an account can hold that lease, and this one holds its bytes. */
  lemma DecodesExactly(data: Bytes, layout: Layout, l: Lease)
    ensures Decode(data, layout) == Success(l) <==> InRange(l) && Represents(data, layout, l)
  {
    hide *;
    if Decode(data, layout) == Success(l) {
      DecodedInRange(data, layout);
    }
    if InRange(l) {
      DecodesInRange(data, layout, l);
    }
  }

  /** A lease written in the order of any IDL that has these fields decodes to the same lease, whatever
      other fields there are. */
  lemma RoundTrip(l: Lease, others: map<string, Bytes>, fields: seq<Field>, sizes: seq<nat>)
    requires InRange(l) && Fills(others + Contents(l), fields, sizes)
    requires forall name :: name in Contents(l) ==> HasField(fields, name)
    ensures Decode(Encode(DISCRIMINATOR, PartsOf(fields, others + Contents(l))), LayoutOf(fields, sizes)) == Success(l)
  {
    var contents := others + Contents(l);
    var data, layout := Encode(DISCRIMINATOR, PartsOf(fields, contents)), LayoutOf(fields, sizes);
    hide Encode, PartsOf, LayoutOf, Contents, Decode, Holds;
    forall name | name in Contents(l) ensures Holds(data, layout, name, Contents(l)[name]) {
      var k :| 0 <= k < |fields| && fields[k].name == name;
      EncodedHolds(DISCRIMINATOR, contents, fields, sizes, k);
    }
    if |fields| > 0 {
      EncodedHolds(DISCRIMINATOR, contents, fields, sizes, 0);
    } else {
      SomeContents(l);
    }
    LayoutHasRoom(fields, sizes);
    AllHeld(data, layout, l);
    DecodesExactly(data, layout, l);
  }

  lemma AllHeld(data: Bytes, layout: Layout, l: Lease)
    requires InRange(l) && |data| == layout.size && DISCRIMINATOR_LENGTH <= |data|
      && data[..DISCRIMINATOR_LENGTH] == DISCRIMINATOR
    requires forall name :: name in Contents(l) ==> Holds(data, layout, name, Contents(l)[name])
    ensures Represents(data, layout, l)
  {
    hide Holds, ToLittleEndian, ToBigEndian, Unsigned, StatusByte, Pow256;
    var c := Contents(l);
    assert "landlord" in c && "tenant" in c && "mint" in c && "lease_id" in c && "rent_amount" in c
      && "deposit_amount" in c;
    assert "start_ts" in c && "term_periods" in c && "paid_count" in c && "status" in c;
  }

  lemma SomeContents(l: Lease)
    requires InRange(l)
    ensures "status" in Contents(l)
  {
  }

  // ---- rewriting one field ----

  ghost predicate LeaseFields(fields: seq<Field>, sizes: seq<nat>)
    requires |fields| == |sizes|
  {
    && Named(fields)
    && Sized(fields, sizes, "landlord", 32) && Sized(fields, sizes, "tenant", 32) && Sized(fields, sizes, "mint", 32)
    && Sized(fields, sizes, "lease_id", 8) && Sized(fields, sizes, "rent_amount", 8)
    && Sized(fields, sizes, "deposit_amount", 8)
    && Sized(fields, sizes, "start_ts", 8) && Sized(fields, sizes, "term_periods", 2)
    && Sized(fields, sizes, "paid_count", 2)
    && Sized(fields, sizes, "status", 1)
  }

  /** The two leases differ at most in what field `name` holds. */
  predicate AgreeBut(name: string, a: Lease, b: Lease) {
    && (name != "landlord" ==> a.landlord == b.landlord) && (name != "tenant" ==> a.tenant == b.tenant)
    && (name != "mint" ==> a.mint == b.mint)
    && (name != "lease_id" ==> a.leaseId == b.leaseId) && (name != "rent_amount" ==> a.rentAmount == b.rentAmount)
    && (name != "deposit_amount" ==> a.depositAmount == b.depositAmount)
    && (name != "start_ts" ==> a.startTs == b.startTs)
    && (name != "term_periods" ==> a.termPeriods == b.termPeriods)
    && (name != "paid_count" ==> a.paidCount == b.paidCount)
    && (name != "status" ==> a.status == b.status)
  }

  lemma Succeeds(data: Bytes, layout: Layout)
    requires |data| == layout.size && DISCRIMINATOR_LENGTH <= |data| && data[..DISCRIMINATOR_LENGTH] == DISCRIMINATOR
    requires Readable(data, layout) && ReadBytes(data, layout, "status", 1).value[0] < |STATUSES|
    ensures Decode(data, layout).Success?
  {
    hide ReadBytes;
  }

  /** Rewriting one field of a lease account changes what is decoded for that field and nothing else; only
      a new status byte can make it undecodable. */
  lemma RewriteChangesOneField(data: Bytes, fields: seq<Field>, sizes: seq<nat>, j: nat, bytes: Bytes)
    requires |fields| == |sizes| && LeaseFields(fields, sizes) && j < |fields| && |bytes| == sizes[j]
    requires Decode(data, LayoutOf(fields, sizes)).Success?
    ensures Start(sizes, j) + |bytes| <= |data|
    ensures var layout, name := LayoutOf(fields, sizes), fields[j].name;
      var a, r := Decode(data, layout).value, Decode(Write(data, Start(sizes, j), bytes), layout);
      && (name != "status" ==> r.Success?)
      && (r.Success? ==> AgreeBut(name, a, r.value))
  {
    var layout := LayoutOf(fields, sizes);
    RewritingOneField(data, fields, sizes, j, bytes, j, []);
    var t := Write(data, Start(sizes, j), bytes);
    Reads(data, layout, Decode(data, layout).value);
    if fields[j].name != "status" {
      SameReading(data, fields, sizes, j, bytes, "status", 1);
      AllReadable(t, fields, sizes);
      hide *;
      Succeeds(t, layout);
    }
    if Decode(t, layout).Success? {
      hide *;
      SameLease(data, fields, sizes, j, bytes);
    }
  }

  lemma SameLease(data: Bytes, fields: seq<Field>, sizes: seq<nat>, j: nat, bytes: Bytes)
    requires |fields| == |sizes| && LeaseFields(fields, sizes) && j < |fields| && |bytes| == sizes[j]
    requires Decode(data, LayoutOf(fields, sizes)).Success?
    requires Start(sizes, j) + |bytes| <= |data|
      && Decode(Write(data, Start(sizes, j), bytes), LayoutOf(fields, sizes)).Success?
    ensures AgreeBut(fields[j].name, Decode(data, LayoutOf(fields, sizes)).value,
                     Decode(Write(data, Start(sizes, j), bytes), LayoutOf(fields, sizes)).value)
  {
    var layout := LayoutOf(fields, sizes);
    var t := Write(data, Start(sizes, j), bytes);
    hide Decode, LayoutOf, Write, ReadBytes, ReadNat, ReadAddress, ReadInt64, Start, Sized;
    Reads(data, layout, Decode(data, layout).value);
    Reads(t, layout, Decode(t, layout).value);
    SameReading(data, fields, sizes, j, bytes, "landlord", 32);
    SameReading(data, fields, sizes, j, bytes, "tenant", 32);
    SameReading(data, fields, sizes, j, bytes, "mint", 32);
    SameReading(data, fields, sizes, j, bytes, "lease_id", 8);
    SameReading(data, fields, sizes, j, bytes, "rent_amount", 8);
    SameReading(data, fields, sizes, j, bytes, "deposit_amount", 8);
    SameReading(data, fields, sizes, j, bytes, "start_ts", 8);
    SameReading(data, fields, sizes, j, bytes, "term_periods", 2);
    SameReading(data, fields, sizes, j, bytes, "paid_count", 2);
    SameReading(data, fields, sizes, j, bytes, "status", 1);
  }

  predicate Readable(data: Bytes, layout: Layout) {
    && ReadBytes(data, layout, "landlord", 32).Success? && ReadBytes(data, layout, "tenant", 32).Success?
    && ReadBytes(data, layout, "mint", 32).Success? && ReadBytes(data, layout, "lease_id", 8).Success?
    && ReadBytes(data, layout, "rent_amount", 8).Success? && ReadBytes(data, layout, "deposit_amount", 8).Success?
    && ReadBytes(data, layout, "start_ts", 8).Success? && ReadBytes(data, layout, "term_periods", 2).Success?
    && ReadBytes(data, layout, "paid_count", 2).Success? && ReadBytes(data, layout, "status", 1).Success?
  }

  /** Under a layout with all its fields, every account of the right size can be read, but for its
      discriminator and its status. */
  lemma AllReadable(data: Bytes, fields: seq<Field>, sizes: seq<nat>)
    requires |fields| == |sizes| && LeaseFields(fields, sizes) && |data| == LayoutOf(fields, sizes).size
    ensures Readable(data, LayoutOf(fields, sizes))
  {
    hide ReadBytes, LayoutOf, Sized;
    FieldReadable(data, fields, sizes, "landlord", 32);
    FieldReadable(data, fields, sizes, "tenant", 32);
    FieldReadable(data, fields, sizes, "mint", 32);
    FieldReadable(data, fields, sizes, "lease_id", 8);
    FieldReadable(data, fields, sizes, "rent_amount", 8);
    FieldReadable(data, fields, sizes, "deposit_amount", 8);
    FieldReadable(data, fields, sizes, "start_ts", 8);
    FieldReadable(data, fields, sizes, "term_periods", 2);
    FieldReadable(data, fields, sizes, "paid_count", 2);
    FieldReadable(data, fields, sizes, "status", 1);
  }

  // ---- the pinned layout ----

  const FIELDS: seq<Field> := [
    Field("landlord", Scalar("pubkey")), Field("tenant", Scalar("pubkey")), Field("mint", Scalar("pubkey")),
    Field("lease_id", Scalar("u64")), Field("rent_amount", Scalar("u64")), Field("deposit_amount", Scalar("u64")),
    Field("start_ts", Scalar("i64")), Field("term_periods", Scalar("u16")), Field("paid_count", Scalar("u16")),
    Field("lease_hash", Array(Scalar("u8"), 32)), Field("status", Defined("Status")), Field("bump", Scalar("u8")),
    Field("period_secs", Scalar("i64")), Field("grace_secs", Scalar("i64")), Field("region", Array(Scalar("u8"), 2)),
    Field("discount_pct", Scalar("u8")), Field("proposed_deduction", Scalar("u64")),
    Field("disputed_at", Scalar("i64")),
    Field("claim_pause_secs", Scalar("i64")), Field("dispute_rounds", Scalar("u8"))]

  const SIZES: seq<nat> := [32, 32, 32, 8, 8, 8, 8, 2, 2, 32, 1, 1, 8, 8, 2, 1, 8, 8, 8, 1]

  const STARTS: seq<nat> :=
    [8, 40, 72, 104, 112, 120, 128, 136, 138, 140, 172, 173, 174, 182, 190, 192, 193, 201, 209, 217, 218]

  const IDL: Idl := [
    TypeDef("Status", Enum([Variant([]), Variant([]), Variant([]), Variant([]), Variant([]), Variant([])])),
    TypeDef("Lease", Struct(FIELDS))]

  ghost function Rank(name: string): nat { if name == "Status" then 0 else 1 }

  lemma IdlIsAcyclic()
    ensures Acyclic(IDL, Rank) && FieldsBelow(FIELDS, Rank, 1)
  {
    assert forall k :: 0 <= k < |FIELDS| ==> Below(FIELDS[k].kind, Rank, 1);
  }

  lemma StatusSize()
    requires Acyclic(IDL, Rank)
    ensures SizeOf(Defined("Status"), IDL, Rank, 1) == Success(1)
  {
    assert Find(IDL, "Status") == Some(IDL[0].body);
    var v := IDL[0].body.variants;
    NoPayload(v, Rank("Status"));
  }

  lemma {:induction false} NoPayload(variants: seq<Variant>, bound: nat)
    requires Acyclic(IDL, Rank) && BodyBelow(Enum(variants), Rank, bound)
    requires forall k :: 0 <= k < |variants| ==> variants[k].fields == []
    ensures LargestVariant(variants, IDL, Rank, bound) == Success(0)
  {
    if variants != [] {
      NoPayload(variants[1..], bound);
      assert SizeOfFields(variants[0].fields, IDL, Rank, bound) == Success(0);
    }
  }

  /** The layout computed from the program's IDL is the pinned one: 218 bytes, `rent_amount` at 112, `status`
      at 172, and so on. */
  lemma PinnedLayout(k: nat)
    requires k <= |SIZES|
    ensures Acyclic(IDL, Rank) && FieldsBelow(FIELDS, Rank, 1)
    ensures FieldSizes(FIELDS, IDL, Rank, 1) == Success(SIZES)
    ensures |FIELDS| == |SIZES| && Start(SIZES, k) == STARTS[k] && Start(SIZES, |SIZES|) == 218
  {
    IdlIsAcyclic();
    FieldsSized();
    PinnedStarts(k);
    hide *;
    FieldSizesAre(FIELDS, SIZES, IDL, Rank, 1);
  }

  lemma PinnedStarts(k: nat)
    requires k <= |SIZES|
    ensures Start(SIZES, k) == STARTS[k] && Start(SIZES, |SIZES|) == 218
  {
    StartsAre(SIZES, STARTS, k);
    StartsAre(SIZES, STARTS, |SIZES|);
    hide Start;
  }

  lemma FieldsSized()
    requires Acyclic(IDL, Rank) && FieldsBelow(FIELDS, Rank, 1)
    ensures forall i :: 0 <= i < |FIELDS| ==> SizeOf(FIELDS[i].kind, IDL, Rank, 1) == Success(SIZES[i])
  {
    KindSizes();
    hide SizeOf, Acyclic, FieldsBelow, IDL, Rank;
  }

  lemma KindSizes()
    requires Acyclic(IDL, Rank)
    ensures SizeOf(Scalar("pubkey"), IDL, Rank, 1) == Success(32) && SizeOf(Scalar("u64"), IDL, Rank, 1) == Success(8)
    ensures SizeOf(Scalar("i64"), IDL, Rank, 1) == Success(8) && SizeOf(Scalar("u16"), IDL, Rank, 1) == Success(2)
    ensures SizeOf(Scalar("u8"), IDL, Rank, 1) == Success(1) && SizeOf(Defined("Status"), IDL, Rank, 1) == Success(1)
    ensures SizeOf(Array(Scalar("u8"), 32), IDL, Rank, 1) == Success(32)
      && SizeOf(Array(Scalar("u8"), 2), IDL, Rank, 1) == Success(2)
  {
    StatusSize();
    ScalarSizes();
    hide ScalarSize;
  }
}
