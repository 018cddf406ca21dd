/** The layouts of a tenant's profile and of an application, computed from the program's IDL: the accounts whose rent
    the treasury gives a new wallet. */
module AccountLayouts {
  import opened Basics
  import opened Layout

  const PROFILE: seq<Field> := [
    Field("wallet", Scalar("pubkey")), Field("leases_completed", Scalar("u32")), Field("paid_on_time", Scalar("u32")),
    Field("paid_late", Scalar("u32")), Field("deposits_returned_full", Scalar("u32")),
    Field("deposit_total", Scalar("u64")), Field("deducted_total", Scalar("u64")), Field("defaults", Scalar("u32")),
    Field("deposits_claimed", Scalar("u32")), Field("rent_paid_total", Scalar("u64")),
    Field("last_deposit_return_bps", Scalar("u16")), Field("deposit_events", Scalar("u32"))]

  const PROFILE_SIZES: seq<nat> := [32, 4, 4, 4, 4, 8, 8, 4, 4, 8, 2, 4]

  const PROFILE_STARTS: seq<nat> := [8, 40, 44, 48, 52, 56, 64, 72, 76, 80, 88, 90, 94]

  const APPLICATION: seq<Field> := [
    Field("listing", Scalar("pubkey")), Field("landlord", Scalar("pubkey")), Field("tenant", Scalar("pubkey"))]

  const APPLICATION_SIZES: seq<nat> := [32, 32, 32]

  const APPLICATION_STARTS: seq<nat> := [8, 40, 72, 104]

  const IDL: Idl := [TypeDef("Application", Struct(APPLICATION)), TypeDef("Profile", Struct(PROFILE))]

  ghost function Rank(name: string): nat { 0 }

  lemma IdlIsAcyclic()
    ensures Acyclic(IDL, Rank) && FieldsBelow(PROFILE, Rank, 0) && FieldsBelow(APPLICATION, Rank, 0)
    ensures Find(IDL, "Profile") == Some(Struct(PROFILE)) && Find(IDL, "Application") == Some(Struct(APPLICATION))
  {
    assert IDL[1..] == [TypeDef("Profile", Struct(PROFILE))];
    hide PROFILE, APPLICATION;
    ScalarsBelow(PROFILE);
    ScalarsBelow(APPLICATION);
  }

  lemma ScalarsBelow(fields: seq<Field>)
    requires forall k :: 0 <= k < |fields| ==> fields[k].kind.Scalar?
    ensures FieldsBelow(fields, Rank, 0)
  {
  }

  lemma KindSizes()
    requires Acyclic(IDL, Rank)
    ensures SizeOf(Scalar("pubkey"), IDL, Rank, 0) == Success(32) && SizeOf(Scalar("u64"), IDL, Rank, 0) == Success(8)
    ensures SizeOf(Scalar("u32"), IDL, Rank, 0) == Success(4) && SizeOf(Scalar("u16"), IDL, Rank, 0) == Success(2)
  {
    ScalarSizes();
    hide ScalarSize;
  }

  lemma FieldsSized()
    requires Acyclic(IDL, Rank) && FieldsBelow(PROFILE, Rank, 0) && FieldsBelow(APPLICATION, Rank, 0)
    ensures |PROFILE| == |PROFILE_SIZES| && |APPLICATION| == |APPLICATION_SIZES|
    ensures forall i :: 0 <= i < |PROFILE| ==> SizeOf(PROFILE[i].kind, IDL, Rank, 0) == Success(PROFILE_SIZES[i])
    ensures forall i ::
      0 <= i < |APPLICATION| ==> SizeOf(APPLICATION[i].kind, IDL, Rank, 0) == Success(APPLICATION_SIZES[i])
  {
    KindSizes();
    hide SizeOf, Acyclic, FieldsBelow, IDL, Rank;
  }

  lemma FieldsDiffer()
    ensures Named(PROFILE) && Named(APPLICATION)
  {
  }

  lemma OffsetsOf(fields: seq<Field>, sizes: seq<nat>, k: nat)
    requires |fields| == |sizes| && Named(fields) && k < |fields|
    ensures var at := LayoutOf(fields, sizes).offsets;
      fields[k].name in at && at[fields[k].name] == Start(sizes, k)
  {
    OffsetsAreStarts(fields, sizes);
  }

  /** A profile has 94 bytes, with each field at the start listed for it. */
  lemma ProfileLayout(k: nat)
    requires k < |PROFILE|
    ensures Acyclic(IDL, Rank) && FieldsBelow(PROFILE, Rank, 0) && Find(IDL, "Profile") == Some(Struct(PROFILE))
    ensures |PROFILE| == |PROFILE_SIZES| && FieldSizes(PROFILE, IDL, Rank, 0) == Success(PROFILE_SIZES)
    ensures LayoutOf(PROFILE, PROFILE_SIZES).size == 94
    ensures var at := LayoutOf(PROFILE, PROFILE_SIZES).offsets;
      PROFILE[k].name in at && at[PROFILE[k].name] == PROFILE_STARTS[k]
  {
    IdlIsAcyclic();
    FieldsSized();
    FieldsDiffer();
    ProfileStarts(k);
    ProfileStarts(|PROFILE_SIZES|);
    hide *;
    FieldSizesAre(PROFILE, PROFILE_SIZES, IDL, Rank, 0);
    SizeIsEnd(PROFILE, PROFILE_SIZES);
    OffsetsOf(PROFILE, PROFILE_SIZES, k);
  }

  lemma ProfileStarts(k: nat)
    requires k <= |PROFILE_SIZES|
    ensures Start(PROFILE_SIZES, k) == PROFILE_STARTS[k] && PROFILE_STARTS[|PROFILE_SIZES|] == 94
  {
    StartsAre(PROFILE_SIZES, PROFILE_STARTS, k);
    hide Start;
  }

  /** An application has 104 bytes, with each field at the start listed for it. */
  lemma ApplicationLayout(k: nat)
    requires k < |APPLICATION|
    ensures Acyclic(IDL, Rank) && FieldsBelow(APPLICATION, Rank, 0)
      && Find(IDL, "Application") == Some(Struct(APPLICATION))
    ensures |APPLICATION| == |APPLICATION_SIZES| && FieldSizes(APPLICATION, IDL, Rank, 0) == Success(APPLICATION_SIZES)
    ensures LayoutOf(APPLICATION, APPLICATION_SIZES).size == 104
    ensures var at := LayoutOf(APPLICATION, APPLICATION_SIZES).offsets;
      APPLICATION[k].name in at && at[APPLICATION[k].name] == APPLICATION_STARTS[k]
  {
    IdlIsAcyclic();
    FieldsSized();
    FieldsDiffer();
    ApplicationStarts(k);
    ApplicationStarts(|APPLICATION_SIZES|);
    hide *;
    FieldSizesAre(APPLICATION, APPLICATION_SIZES, IDL, Rank, 0);
    SizeIsEnd(APPLICATION, APPLICATION_SIZES);
    OffsetsOf(APPLICATION, APPLICATION_SIZES, k);
  }

  lemma ApplicationStarts(k: nat)
    requires k <= |APPLICATION_SIZES|
    ensures Start(APPLICATION_SIZES, k) == APPLICATION_STARTS[k] && APPLICATION_STARTS[|APPLICATION_SIZES|] == 104
  {
    StartsAre(APPLICATION_SIZES, APPLICATION_STARTS, k);
    hide Start;
  }
}
