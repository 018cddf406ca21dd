/** Rewriting one field of a mediation account changes what is decoded for it, and nothing else. */
module DisputeRewrite {
  import opened Basics
  import opened Layout
  import opened AccountData
  import opened DisputeRecord

  /** Rewriting a field leaves what is read from every other field of a computed layout as it was: a
      number, an address, a choice. */
  lemma OtherReadingsStay(data: Bytes, fields: seq<Field>, sizes: seq<nat>, j: nat, bytes: Bytes, k: nat)
    requires |fields| == |sizes| && Named(fields) && j < |fields| && k < |fields| && j != k
    requires |bytes| == sizes[j] && |data| == LayoutOf(fields, sizes).size
    ensures Start(sizes, j) + |bytes| <= |data|
    ensures var t, layout, name := Write(data, Start(sizes, j), bytes), LayoutOf(fields, sizes), fields[k].name;
      && ReadBytes(t, layout, name, sizes[k]) == ReadBytes(data, layout, name, sizes[k])
      && ReadNat(t, layout, name, sizes[k]) == ReadNat(data, layout, name, sizes[k])
      && (sizes[k] == 8 ==> ReadInt64(t, layout, name) == ReadInt64(data, layout, name))
      && (sizes[k] == HASH_LENGTH ==> DecodeHash(t, layout, name) == DecodeHash(data, layout, name)
                                      && DecodeKey(t, layout, name) == DecodeKey(data, layout, name)
                                      && ReadAddress(t, layout, name) == ReadAddress(data, layout, name))
  {
    assert Sized(fields, sizes, fields[k].name, sizes[k]);
    hide LayoutOf, Write, Start, Sized, ReadBytes, ReadNat, ReadAddress, ReadInt64;
    SameReading(data, fields, sizes, j, bytes, fields[k].name, sizes[k]);
  }

  /** The candidates of a side stay too, unless its own array or count is rewritten. */
  lemma OtherCandidatesStay(data: Bytes, fields: seq<Field>, sizes: seq<nat>, j: nat, bytes: Bytes, table: nat,
                            count: nat, limit: nat)
    requires |fields| == |sizes| && Named(fields) && j < |fields| && table < |fields| && count < |fields| && j != table
      && j != count
    requires |bytes| == sizes[j] && |data| == LayoutOf(fields, sizes).size && ArraysAdjacent(fields, sizes, limit)
    requires sizes[table] == MAX_CANDIDATES * (limit + CANDIDATE_TAIL) && sizes[count] == 1
    ensures Start(sizes, j) + |bytes| <= |data|
    ensures DecodeCandidates(Write(data, Start(sizes, j), bytes), LayoutOf(fields, sizes), fields[table].name,
        fields[count].name)
         == DecodeCandidates(data, LayoutOf(fields, sizes), fields[table].name, fields[count].name)
  {
    StrideIsDerived(fields, sizes, limit);
    OtherReadingsStay(data, fields, sizes, j, bytes, table);
    OtherReadingsStay(data, fields, sizes, j, bytes, count);
    hide LayoutOf, Write, Start, ReadBytes, ReadNat, NameLimit, ReadCandidates;
  }

  /** The fields of a dispute, with the sizes the reader expects. */
  ghost predicate DisputeFields(fields: seq<Field>, sizes: seq<nat>, limit: nat)
    requires |fields| == |sizes|
  {
    && Named(fields) && ArraysAdjacent(fields, sizes, limit) && Sized(fields, sizes, "lease", 32)
    && Sized(fields, sizes, "landlord_candidates", MAX_CANDIDATES * (limit + CANDIDATE_TAIL))
    && Sized(fields, sizes, "landlord_count", 1)
    && Sized(fields, sizes, "tenant_candidates", MAX_CANDIDATES * (limit + CANDIDATE_TAIL))
    && Sized(fields, sizes, "tenant_count", 1)
    && Sized(fields, sizes, "landlord_pick", HASH_LENGTH) && Sized(fields, sizes, "tenant_pick", HASH_LENGTH)
    && Sized(fields, sizes, "agreed_name_hash", HASH_LENGTH) && Sized(fields, sizes, "agreed_fee", 8)
    && Sized(fields, sizes, "proposed_key", 32) && Sized(fields, sizes, "key_proposer", 32)
    && Sized(fields, sizes, "landlord_key_proposals", 1) && Sized(fields, sizes, "tenant_key_proposals", 1)
    && Sized(fields, sizes, "appraiser", 32) && Sized(fields, sizes, "selection_deadline", 8)
    && Sized(fields, sizes, "verdict_deadline", 8)
  }

  /** What `Decode` reads, field by field. */
  lemma Reads(data: Bytes, layout: Layout, d: Dispute)
    ensures Decode(data, layout) == Success(d) <==>
      && |data| == layout.size && DISCRIMINATOR_LENGTH <= |data| && data[..DISCRIMINATOR_LENGTH] == DISCRIMINATOR
      && ReadAddress(data, layout, "lease") == Success(d.lease)
      && DecodeCandidates(data, layout, "landlord_candidates", "landlord_count") == Success(d.landlordCandidates)
      && DecodeCandidates(data, layout, "tenant_candidates", "tenant_count") == Success(d.tenantCandidates)
      && DecodeHash(data, layout, "landlord_pick") == Success(d.landlordPick)
      && DecodeHash(data, layout, "tenant_pick") == Success(d.tenantPick)
      && DecodeHash(data, layout, "agreed_name_hash") == Success(d.agreedNameHash)
      && ReadNat(data, layout, "agreed_fee", 8) == Success(d.agreedFee)
      && DecodeKey(data, layout, "proposed_key") == Success(d.proposedKey)
      && DecodeKey(data, layout, "key_proposer") == Success(d.keyProposer)
      && ReadNat(data, layout, "landlord_key_proposals", 1) == Success(d.landlordKeyProposals)
      && ReadNat(data, layout, "tenant_key_proposals", 1) == Success(d.tenantKeyProposals)
      && DecodeKey(data, layout, "appraiser") == Success(d.appraiser)
      && ReadInt64(data, layout, "selection_deadline") == Success(d.selectionDeadline)
      && ReadInt64(data, layout, "verdict_deadline") == Success(d.verdictDeadline)
  {
    hide ReadAddress, ReadNat, ReadInt64, DecodeCandidates, DecodeHash, DecodeKey;
  }

  /** Every field can be read, whatever its bytes are. */
  predicate Readable(data: Bytes, layout: Layout) {
    && ReadAddress(data, layout, "lease").Success?
    && DecodeCandidates(data, layout, "landlord_candidates", "landlord_count").Success?
    && DecodeCandidates(data, layout, "tenant_candidates", "tenant_count").Success?
    && DecodeHash(data, layout, "landlord_pick").Success? && DecodeHash(data, layout, "tenant_pick").Success?
    && DecodeHash(data, layout, "agreed_name_hash").Success? && ReadNat(data, layout, "agreed_fee", 8).Success?
    && DecodeKey(data, layout, "proposed_key").Success? && DecodeKey(data, layout, "key_proposer").Success?
    && ReadNat(data, layout, "landlord_key_proposals", 1).Success?
    && ReadNat(data, layout, "tenant_key_proposals", 1).Success?
    && DecodeKey(data, layout, "appraiser").Success?
    && ReadInt64(data, layout, "selection_deadline").Success? && ReadInt64(data, layout, "verdict_deadline").Success?
  }

  lemma FieldReads(data: Bytes, fields: seq<Field>, sizes: seq<nat>, name: string, width: nat)
    requires |fields| == |sizes| && Named(fields) && Sized(fields, sizes, name, width)
      && |data| == LayoutOf(fields, sizes).size
    ensures var layout := LayoutOf(fields, sizes);
      && ReadNat(data, layout, name, width).Success? && ReadBytes(data, layout, name, width).Success?
      && (width == 32 ==>
           ReadAddress(data, layout, name).Success? && DecodeHash(data, layout, name).Success?
           && DecodeKey(data, layout, name).Success?)
      && (width == 8 ==> ReadInt64(data, layout, name).Success?)
  {
    FieldReadable(data, fields, sizes, name, width);
    hide ReadBytes, LayoutOf, Sized;
  }

  lemma CandidatesReadable(data: Bytes, fields: seq<Field>, sizes: seq<nat>, limit: nat, arrayField: string,
                           countField: string)
    requires |fields| == |sizes| && Named(fields) && ArraysAdjacent(fields, sizes, limit)
      && |data| == LayoutOf(fields, sizes).size
    requires Sized(fields, sizes, arrayField, MAX_CANDIDATES * (limit + CANDIDATE_TAIL))
      && Sized(fields, sizes, countField, 1)
    ensures DecodeCandidates(data, LayoutOf(fields, sizes), arrayField, countField).Success?
  {
    StrideIsDerived(fields, sizes, limit);
    FieldReads(data, fields, sizes, arrayField, MAX_CANDIDATES * (limit + CANDIDATE_TAIL));
    FieldReads(data, fields, sizes, countField, 1);
    hide ReadBytes, ReadNat, LayoutOf, Sized, NameLimit, ReadCandidates, ArraysAdjacent;
  }

  lemma AllReadable(data: Bytes, fields: seq<Field>, sizes: seq<nat>, limit: nat)
    requires |fields| == |sizes| && DisputeFields(fields, sizes, limit) && |data| == LayoutOf(fields, sizes).size
    ensures Readable(data, LayoutOf(fields, sizes))
  {
    hide ReadAddress, ReadNat, ReadInt64, DecodeCandidates, DecodeHash, DecodeKey, LayoutOf, Sized, ArraysAdjacent,
      Named;
    FieldReads(data, fields, sizes, "lease", 32);
    CandidatesReadable(data, fields, sizes, limit, "landlord_candidates", "landlord_count");
    CandidatesReadable(data, fields, sizes, limit, "tenant_candidates", "tenant_count");
    FieldReads(data, fields, sizes, "landlord_pick", HASH_LENGTH);
    FieldReads(data, fields, sizes, "tenant_pick", HASH_LENGTH);
    FieldReads(data, fields, sizes, "agreed_name_hash", HASH_LENGTH);
    FieldReads(data, fields, sizes, "agreed_fee", 8);
    FieldReads(data, fields, sizes, "proposed_key", 32);
    FieldReads(data, fields, sizes, "key_proposer", 32);
    FieldReads(data, fields, sizes, "landlord_key_proposals", 1);
    FieldReads(data, fields, sizes, "tenant_key_proposals", 1);
    FieldReads(data, fields, sizes, "appraiser", 32);
    FieldReads(data, fields, sizes, "selection_deadline", 8);
    FieldReads(data, fields, sizes, "verdict_deadline", 8);
  }

  /** Under a layout with these fields an account decodes exactly when it has the size and the discriminator of a
      dispute, whatever else it holds. */
  lemma DecodableExactly(data: Bytes, fields: seq<Field>, sizes: seq<nat>, limit: nat)
    requires |fields| == |sizes| && DisputeFields(fields, sizes, limit)
    ensures Decode(data, LayoutOf(fields, sizes)).Success? <==>
      |data| == LayoutOf(fields, sizes).size && DISCRIMINATOR_LENGTH <= |data|
        && data[..DISCRIMINATOR_LENGTH] == DISCRIMINATOR
  {
    hide ReadAddress, ReadNat, ReadInt64, DecodeCandidates, DecodeHash, DecodeKey, LayoutOf, Sized, ArraysAdjacent,
      Named, DisputeFields;
    if |data| == LayoutOf(fields, sizes).size {
      AllReadable(data, fields, sizes, limit);
    }
  }

  /** The two disputes differ at most in what field `name` holds; a side's candidates come from its array and its
      count. */
  predicate AgreeBut(name: string, a: Dispute, b: Dispute) {
    && (name != "lease" ==> a.lease == b.lease)
    && (name != "landlord_candidates" && name != "landlord_count" ==> a.landlordCandidates == b.landlordCandidates)
    && (name != "tenant_candidates" && name != "tenant_count" ==> a.tenantCandidates == b.tenantCandidates)
    && (name != "landlord_pick" ==> a.landlordPick == b.landlordPick)
    && (name != "tenant_pick" ==> a.tenantPick == b.tenantPick)
    && (name != "agreed_name_hash" ==> a.agreedNameHash == b.agreedNameHash)
    && (name != "agreed_fee" ==> a.agreedFee == b.agreedFee)
    && (name != "proposed_key" ==> a.proposedKey == b.proposedKey)
    && (name != "key_proposer" ==> a.keyProposer == b.keyProposer)
    && (name != "landlord_key_proposals" ==> a.landlordKeyProposals == b.landlordKeyProposals)
    && (name != "tenant_key_proposals" ==> a.tenantKeyProposals == b.tenantKeyProposals)
    && (name != "appraiser" ==> a.appraiser == b.appraiser)
    && (name != "selection_deadline" ==> a.selectionDeadline == b.selectionDeadline)
    && (name != "verdict_deadline" ==> a.verdictDeadline == b.verdictDeadline)
  }

  /** `OtherReadingsStay`, by name. */
  lemma ReadingStays(data: Bytes, fields: seq<Field>, sizes: seq<nat>, j: nat, bytes: Bytes, name: string, width: nat)
    requires |fields| == |sizes| && Named(fields) && j < |fields| && |bytes| == sizes[j]
      && |data| == LayoutOf(fields, sizes).size
    requires Sized(fields, sizes, name, width)
    ensures Start(sizes, j) + |bytes| <= |data|
    ensures name != fields[j].name ==>
              var t, layout := Write(data, Start(sizes, j), bytes), LayoutOf(fields, sizes);
              && ReadNat(t, layout, name, width) == ReadNat(data, layout, name, width)
              && (width == 32 ==> ReadAddress(t, layout, name) == ReadAddress(data, layout, name)
                                  && DecodeHash(t, layout, name) == DecodeHash(data, layout, name)
                                  && DecodeKey(t, layout, name) == DecodeKey(data, layout, name))
              && (width == 8 ==> ReadInt64(t, layout, name) == ReadInt64(data, layout, name))
  {
    FieldsInside(sizes, j);
    var k :| 0 <= k < |fields| && fields[k].name == name && sizes[k] == width;
    hide LayoutOf, Write, Start, ReadBytes, ReadNat, ReadAddress, ReadInt64, DecodeHash, DecodeKey;
    if k != j {
      OtherReadingsStay(data, fields, sizes, j, bytes, k);
    }
  }

  lemma CandidatesStay(data: Bytes, fields: seq<Field>, sizes: seq<nat>, limit: nat, j: nat, bytes: Bytes,
                       arrayField: string, countField: string)
    requires |fields| == |sizes| && Named(fields) && j < |fields| && |bytes| == sizes[j]
      && |data| == LayoutOf(fields, sizes).size
    requires Sized(fields, sizes, arrayField, MAX_CANDIDATES * (limit + CANDIDATE_TAIL))
      && Sized(fields, sizes, countField, 1)
    requires ArraysAdjacent(fields, sizes, limit)
    ensures Start(sizes, j) + |bytes| <= |data|
    ensures fields[j].name != arrayField && fields[j].name != countField ==>
      DecodeCandidates(Write(data, Start(sizes, j), bytes), LayoutOf(fields, sizes), arrayField, countField)
      == DecodeCandidates(data, LayoutOf(fields, sizes), arrayField, countField)
  {
    FieldsInside(sizes, j);
    var table :| 0 <= table < |fields| && fields[table].name == arrayField
      && sizes[table] == MAX_CANDIDATES * (limit + CANDIDATE_TAIL);
    var count :| 0 <= count < |fields| && fields[count].name == countField && sizes[count] == 1;
    hide LayoutOf, Write, Start, DecodeCandidates, ArraysAdjacent;
    if j != table && j != count {
      OtherCandidatesStay(data, fields, sizes, j, bytes, table, count, limit);
    }
  }

  /** Rewriting one field of a dispute account, whatever the new bytes, leaves an account that decodes, to a
      dispute that differs in that field and nothing else. */
  lemma RewriteChangesOneField(data: Bytes, fields: seq<Field>, sizes: seq<nat>, limit: nat, j: nat, bytes: Bytes)
    requires |fields| == |sizes| && DisputeFields(fields, sizes, limit) && j < |fields| && |bytes| == sizes[j]
    requires Decode(data, LayoutOf(fields, sizes)).Success?
    ensures Start(sizes, j) + |bytes| <= |data|
    ensures var layout := LayoutOf(fields, sizes);
      var a, r := Decode(data, layout).value, Decode(Write(data, Start(sizes, j), bytes), layout);
      r.Success? && AgreeBut(fields[j].name, a, r.value)
  {
    var layout := LayoutOf(fields, sizes);
    DecodableExactly(data, fields, sizes, limit);
    assert Named(fields);
    RewritingOneField(data, fields, sizes, j, bytes, j, []);
    var t := Write(data, Start(sizes, j), bytes);
    hide *;
    DecodableExactly(t, fields, sizes, limit);
    RewrittenReadsAlike(data, fields, sizes, limit, j, bytes);
    AlikeMeansAgree(fields[j].name, data, t, layout);
  }

  /** Both accounts read alike but for field `name`. */
  predicate ReadAlikeBut(name: string, s: Bytes, t: Bytes, layout: Layout) {
    && (name != "lease" ==> ReadAddress(s, layout, "lease") == ReadAddress(t, layout, "lease"))
    && (name != "landlord_candidates" && name != "landlord_count" ==>
          DecodeCandidates(s, layout, "landlord_candidates", "landlord_count")
            == DecodeCandidates(t, layout, "landlord_candidates", "landlord_count"))
    && (name != "tenant_candidates" && name != "tenant_count" ==>
          DecodeCandidates(s, layout, "tenant_candidates", "tenant_count")
            == DecodeCandidates(t, layout, "tenant_candidates", "tenant_count"))
    && (name != "landlord_pick" ==> DecodeHash(s, layout, "landlord_pick") == DecodeHash(t, layout, "landlord_pick"))
    && (name != "tenant_pick" ==> DecodeHash(s, layout, "tenant_pick") == DecodeHash(t, layout, "tenant_pick"))
    && (name != "agreed_name_hash" ==>
         DecodeHash(s, layout, "agreed_name_hash") == DecodeHash(t, layout, "agreed_name_hash"))
    && (name != "agreed_fee" ==> ReadNat(s, layout, "agreed_fee", 8) == ReadNat(t, layout, "agreed_fee", 8))
    && (name != "proposed_key" ==> DecodeKey(s, layout, "proposed_key") == DecodeKey(t, layout, "proposed_key"))
    && (name != "key_proposer" ==> DecodeKey(s, layout, "key_proposer") == DecodeKey(t, layout, "key_proposer"))
    && (name != "landlord_key_proposals" ==>
         ReadNat(s, layout, "landlord_key_proposals", 1) == ReadNat(t, layout, "landlord_key_proposals", 1))
    && (name != "tenant_key_proposals" ==>
         ReadNat(s, layout, "tenant_key_proposals", 1) == ReadNat(t, layout, "tenant_key_proposals", 1))
    && (name != "appraiser" ==> DecodeKey(s, layout, "appraiser") == DecodeKey(t, layout, "appraiser"))
    && (name != "selection_deadline" ==>
         ReadInt64(s, layout, "selection_deadline") == ReadInt64(t, layout, "selection_deadline"))
    && (name != "verdict_deadline" ==>
         ReadInt64(s, layout, "verdict_deadline") == ReadInt64(t, layout, "verdict_deadline"))
  }

  lemma AlikeMeansAgree(name: string, s: Bytes, t: Bytes, layout: Layout)
    requires ReadAlikeBut(name, s, t, layout) && Decode(s, layout).Success? && Decode(t, layout).Success?
    ensures AgreeBut(name, Decode(s, layout).value, Decode(t, layout).value)
  {
    Reads(s, layout, Decode(s, layout).value);
    Reads(t, layout, Decode(t, layout).value);
    hide Decode, ReadNat, ReadAddress, ReadInt64, DecodeCandidates, DecodeHash, DecodeKey;
  }

  lemma RewrittenReadsAlike(data: Bytes, fields: seq<Field>, sizes: seq<nat>, limit: nat, j: nat, bytes: Bytes)
    requires |fields| == |sizes| && DisputeFields(fields, sizes, limit) && j < |fields| && |bytes| == sizes[j]
    requires |data| == LayoutOf(fields, sizes).size && Start(sizes, j) + |bytes| <= |data|
    ensures ReadAlikeBut(fields[j].name, data, Write(data, Start(sizes, j), bytes), LayoutOf(fields, sizes))
  {
    hide LayoutOf, Write, ReadNat, ReadAddress, ReadInt64, DecodeCandidates, DecodeHash, DecodeKey, Start, Sized, Named,
      ArraysAdjacent;
    ReadingStays(data, fields, sizes, j, bytes, "lease", 32);
    CandidatesStay(data, fields, sizes, limit, j, bytes, "landlord_candidates", "landlord_count");
    CandidatesStay(data, fields, sizes, limit, j, bytes, "tenant_candidates", "tenant_count");
    ReadingStays(data, fields, sizes, j, bytes, "landlord_pick", 32);
    ReadingStays(data, fields, sizes, j, bytes, "tenant_pick", 32);
    ReadingStays(data, fields, sizes, j, bytes, "agreed_name_hash", 32);
    ReadingStays(data, fields, sizes, j, bytes, "agreed_fee", 8);
    ReadingStays(data, fields, sizes, j, bytes, "proposed_key", 32);
    ReadingStays(data, fields, sizes, j, bytes, "key_proposer", 32);
    ReadingStays(data, fields, sizes, j, bytes, "landlord_key_proposals", 1);
    ReadingStays(data, fields, sizes, j, bytes, "tenant_key_proposals", 1);
    ReadingStays(data, fields, sizes, j, bytes, "appraiser", 32);
    ReadingStays(data, fields, sizes, j, bytes, "selection_deadline", 8);
    ReadingStays(data, fields, sizes, j, bytes, "verdict_deadline", 8);
  }
}
