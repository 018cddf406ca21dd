/** The layout of a mediation account, computed from the program's IDL. */
module DisputeLayout {
  import opened Basics
  import opened Layout
  import opened AccountData
  import opened DisputeRecord
  import opened DisputeRewrite

  const CANDIDATE_FIELDS: seq<Field> := [
    Field("name", Array(Scalar("u8"), 64)), Field("name_len", Scalar("u8")),
    Field("name_hash", Array(Scalar("u8"), 32)),
    Field("fee", Scalar("u64"))]

  const FIELDS: seq<Field> := [
    Field("lease", Scalar("pubkey")), Field("landlord_candidates", Array(Defined("Candidate"), 3)),
    Field("tenant_candidates", Array(Defined("Candidate"), 3)), Field("landlord_count", Scalar("u8")),
    Field("tenant_count", Scalar("u8")),
    Field("landlord_pick", Array(Scalar("u8"), 32)), Field("tenant_pick", Array(Scalar("u8"), 32)),
    Field("agreed_name_hash", Array(Scalar("u8"), 32)), Field("agreed_fee", Scalar("u64")),
    Field("proposed_key", Scalar("pubkey")),
    Field("key_proposer", Scalar("pubkey")), Field("landlord_key_proposals", Scalar("u8")),
    Field("tenant_key_proposals", Scalar("u8")),
    Field("appraiser", Scalar("pubkey")), Field("selection_deadline", Scalar("i64")),
    Field("verdict_deadline", Scalar("i64")),
    Field("bump", Scalar("u8"))]

  const SIZES: seq<nat> := [32, 315, 315, 1, 1, 32, 32, 32, 8, 32, 32, 1, 1, 32, 8, 8, 1]

  const STARTS: seq<nat> := [8, 40, 355, 670, 671, 672, 704, 736, 768, 776, 808, 840, 841, 842, 874, 882, 890, 891]

  const IDL: Idl := [TypeDef("Candidate", Struct(CANDIDATE_FIELDS)), TypeDef("Dispute", Struct(FIELDS))]

  ghost function Rank(name: string): nat { if name == "Candidate" then 0 else 1 }

  lemma IdlIsAcyclic()
    ensures Acyclic(IDL, Rank) && FieldsBelow(FIELDS, Rank, 1) && FieldsBelow(CANDIDATE_FIELDS, Rank, 0)
  {
    assert forall k :: 0 <= k < |CANDIDATE_FIELDS| ==> Below(CANDIDATE_FIELDS[k].kind, Rank, 0);
    assert forall k :: 0 <= k < |FIELDS| ==> Below(FIELDS[k].kind, Rank, 1);
  }

  lemma ScalarKinds(bound: nat)
    requires Acyclic(IDL, Rank)
    ensures SizeOf(Scalar("pubkey"), IDL, Rank, bound) == Success(32)
      && SizeOf(Scalar("u64"), IDL, Rank, bound) == Success(8)
    ensures SizeOf(Scalar("i64"), IDL, Rank, bound) == Success(8)
      && SizeOf(Scalar("u8"), IDL, Rank, bound) == Success(1)
    ensures SizeOf(Array(Scalar("u8"), 32), IDL, Rank, bound) == Success(32)
      && SizeOf(Array(Scalar("u8"), 64), IDL, Rank, bound) == Success(64)
  {
    ScalarSizes();
    hide ScalarSize;
  }

  /** A candidate takes 64 bytes for the name and the tail that the reader counts on. */
  lemma CandidateSize()
    requires Acyclic(IDL, Rank)
    ensures SizeOf(Defined("Candidate"), IDL, Rank, 1) == Success(64 + CANDIDATE_TAIL)
  {
    IdlIsAcyclic();
    ScalarKinds(0);
    CandidateIsStruct();
    CandidateKinds();
    hide *;
    SizeOfTail(CANDIDATE_FIELDS, 3, IDL, Rank, 0, 8, 0);
    SizeOfTail(CANDIDATE_FIELDS, 2, IDL, Rank, 0, 32, 8);
    SizeOfTail(CANDIDATE_FIELDS, 1, IDL, Rank, 0, 1, 40);
    SizeOfTail(CANDIDATE_FIELDS, 0, IDL, Rank, 0, 64, 41);
    assert CANDIDATE_FIELDS[0..] == CANDIDATE_FIELDS;
  }

  lemma CandidateKinds()
    requires Acyclic(IDL, Rank)
    ensures var f := CANDIDATE_FIELDS;
      && |f| == 4 && f[0].kind == Array(Scalar("u8"), 64) && f[1].kind == Scalar("u8")
      && f[2].kind == Array(Scalar("u8"), 32)
      && f[3].kind == Scalar("u64") && SizeOfFields(f[4..], IDL, Rank, 0) == Success(0)
  {
    assert CANDIDATE_FIELDS[4..] == [];
  }

  lemma CandidateIsStruct()
    requires Acyclic(IDL, Rank) && FieldsBelow(CANDIDATE_FIELDS, Rank, 0)
    ensures SizeOf(Defined("Candidate"), IDL, Rank, 1) == SizeOfFields(CANDIDATE_FIELDS, IDL, Rank, 0)
  {
    assert Find(IDL, "Candidate") == Some(Struct(CANDIDATE_FIELDS));
    hide SizeOfFields;
  }

  lemma KindSizes()
    requires Acyclic(IDL, Rank)
    ensures SizeOf(Scalar("pubkey"), IDL, Rank, 1) == Success(32) && SizeOf(Scalar("u64"), IDL, Rank, 1) == Success(8)
    ensures SizeOf(Scalar("i64"), IDL, Rank, 1) == Success(8) && SizeOf(Scalar("u8"), IDL, Rank, 1) == Success(1)
    ensures SizeOf(Array(Scalar("u8"), 32), IDL, Rank, 1) == Success(32)
    ensures SizeOf(Array(Defined("Candidate"), 3), IDL, Rank, 1) == Success(315)
  {
    ScalarKinds(1);
    CandidateSize();
    hide IDL, Rank, SizeOfFields, Acyclic, Below;
  }

  lemma FieldsSized()
    requires Acyclic(IDL, Rank) && FieldsBelow(FIELDS, Rank, 1)
    ensures forall i :: 0 <= i < |FIELDS| ==> SizeOf(FIELDS[i].kind, IDL, Rank, 1) == Success(SIZES[i])
  {
    KindSizes();
    hide SizeOf, Acyclic, FieldsBelow, IDL, Rank;
  }

  /** A number that tells the names apart. */
  function Code(name: string): nat {
    if name == "" then 0 else 256 * |name| + name[0] as nat
  }

  const CODES: seq<nat> :=
    [1388, 4972, 4468, 3692, 3188, 3436, 2932, 4193, 2657, 3184, 3179, 5740, 5236, 2401, 4723, 4214, 1122]

  lemma CodesAre()
    ensures |FIELDS| == |CODES| && forall i :: 0 <= i < |FIELDS| ==> Code(FIELDS[i].name) == CODES[i]
  {
  }

  lemma CodesDiffer()
    ensures forall i, j :: 0 <= i < j < |CODES| ==> CODES[i] != CODES[j]
  {
  }

  lemma NamedByCode(fields: seq<Field>, codes: seq<nat>)
    requires |fields| == |codes| && forall i :: 0 <= i < |fields| ==> Code(fields[i].name) == codes[i]
    requires forall i, j :: 0 <= i < j < |codes| ==> codes[i] != codes[j]
    ensures Named(fields)
  {
    hide Code;
  }

  lemma FieldsDiffer()
    ensures Named(FIELDS)
  {
    hide *;
    CodesAre();
    CodesDiffer();
    NamedByCode(FIELDS, CODES);
  }

  lemma SizedAt(fields: seq<Field>, sizes: seq<nat>, i: nat)
    requires |fields| == |sizes| && i < |fields|
    ensures Sized(fields, sizes, fields[i].name, sizes[i])
  {
  }

  lemma NamesAre()
    ensures var f := FIELDS;
      && f[0].name == "lease" && f[1].name == "landlord_candidates" && f[2].name == "tenant_candidates"
      && f[3].name == "landlord_count"
      && f[4].name == "tenant_count" && f[5].name == "landlord_pick" && f[6].name == "tenant_pick"
      && f[7].name == "agreed_name_hash"
      && f[8].name == "agreed_fee" && f[9].name == "proposed_key" && f[10].name == "key_proposer"
      && f[11].name == "landlord_key_proposals"
      && f[12].name == "tenant_key_proposals" && f[13].name == "appraiser" && f[14].name == "selection_deadline"
      && f[15].name == "verdict_deadline"
  {
  }

  /** The fields of the IDL are those the reader expects, with 64 bytes for a name. */
  lemma FieldsFit()
    ensures |FIELDS| == |SIZES| && DisputeFields(FIELDS, SIZES, 64)
  {
    FieldsDiffer();
    NamesAre();
    assert |FIELDS| == |SIZES| == 17;
    assert SIZES == [32, 315, 315, 1, 1, 32, 32, 32, 8, 32, 32, 1, 1, 32, 8, 8, 1];
    hide FIELDS, SIZES, Named, Sized;
    forall i | 0 <= i < |FIELDS| ensures Sized(FIELDS, SIZES, FIELDS[i].name, SIZES[i]) {
      SizedAt(FIELDS, SIZES, i);
    }
  }

  /** The layout of a dispute computed from the program's IDL is the pinned one: 891 bytes, with the starts listed;
      the stride derived from its offsets is the 105 bytes of a candidate, 64 of them for the name. */
  lemma PinnedLayout(k: nat)
    requires k <= |SIZES|
    ensures Acyclic(IDL, Rank) && FieldsBelow(FIELDS, Rank, 1)
    ensures FieldSizes(FIELDS, IDL, Rank, 1) == Success(SIZES)
      && SizeOf(Defined("Candidate"), IDL, Rank, 1) == Success(105)
    ensures |FIELDS| == |SIZES| && Start(SIZES, k) == STARTS[k] && LayoutOf(FIELDS, SIZES).size == 891
    ensures NameLimit(LayoutOf(FIELDS, SIZES)) == Success(64)
  {
    IdlIsAcyclic();
    FieldsSized();
    CandidateSize();
    FieldsFit();
    PinnedStarts(k);
    hide *;
    FieldSizesAre(FIELDS, SIZES, IDL, Rank, 1);
    DerivedLimit(FIELDS, SIZES, 64);
    SizeIsEnd(FIELDS, SIZES);
  }

  lemma PinnedStarts(k: nat)
    requires k <= |SIZES|
    ensures Start(SIZES, k) == STARTS[k] && Start(SIZES, |SIZES|) == 891
  {
    StartsAre(SIZES, STARTS, k);
    StartsAre(SIZES, STARTS, |SIZES|);
    hide Start;
  }

  lemma DerivedLimit(fields: seq<Field>, sizes: seq<nat>, limit: nat)
    requires |fields| == |sizes| && DisputeFields(fields, sizes, limit)
    ensures NameLimit(LayoutOf(fields, sizes)) == Success(limit)
  {
    StrideIsDerived(fields, sizes, limit);
  }
}
