/** Reading a mediation account (backend/src/dispute.ts): up to three candidates a side, at a stride derived
    from the layout, and the parties' choices. */
module DisputeRecord {
  import opened Basics
  import opened Layout
  import opened AccountData

  /** The first eight bytes of the SHA-256 of "account:Dispute". */
  const DISCRIMINATOR: Bytes := [36, 49, 241, 67, 40, 36, 241, 74]

  const MAX_CANDIDATES := 3

  /** What follows a candidate's name: its length, its hash and the fee. */
  const CANDIDATE_TAIL := 41

  const HASH_LENGTH := 32

  /** The name is kept as the bytes of its UTF-8. */
  datatype Candidate = Candidate(name: Bytes, nameHash: Bytes, fee: nat)

  datatype Dispute = Dispute(lease: Address, landlordCandidates: seq<Candidate>, tenantCandidates: seq<Candidate>,
                             landlordPick: Option<Bytes>, tenantPick: Option<Bytes>, agreedNameHash: Option<Bytes>,
                             agreedFee: nat,
                             proposedKey: Option<Address>, keyProposer: Option<Address>, landlordKeyProposals: nat,
                             tenantKeyProposals: nat, appraiser: Option<Address>, selectionDeadline: int,
                             verdictDeadline: int)

  function Zeros(n: nat): Bytes {
    seq(n, _ => 0)
  }

  /** A third of the gap between the two candidate arrays. */
  function Stride(layout: Layout): Result<nat, DecodeError> {
    if "tenant_candidates" !in layout.offsets then Failure(MissingField("tenant_candidates"))
    else if "landlord_candidates" !in layout.offsets then Failure(MissingField("landlord_candidates"))
    else
      var gap := layout.offsets["tenant_candidates"] as int - layout.offsets["landlord_candidates"];
      if gap % MAX_CANDIDATES != 0 || gap < MAX_CANDIDATES * CANDIDATE_TAIL then Failure(BadStride)
        else Success(gap / MAX_CANDIDATES)
  }

  /** The longest name a candidate has room for, in bytes. */
  function NameLimit(layout: Layout): Result<nat, DecodeError> {
    var stride :- Stride(layout);
    if stride < CANDIDATE_TAIL then Failure(BadStride) else Success(stride - CANDIDATE_TAIL)
  }

  function ReadCandidate(entry: Bytes, limit: nat): Candidate
    requires |entry| == limit + CANDIDATE_TAIL
  {
    Candidate(entry[..Min(entry[limit], limit)], entry[limit + 1..limit + 33],
      LittleEndian(entry[limit + 33..limit + 41]))
  }

  function ReadCandidates(table: Bytes, limit: nat, count: nat): seq<Candidate>
    requires |table| == MAX_CANDIDATES * (limit + CANDIDATE_TAIL) && count <= MAX_CANDIDATES
  {
    seq(count, i requires 0 <= i < count => ReadCandidate(Entry(table, limit, i), limit))
  }

  function Entry(table: Bytes, limit: nat, i: nat): (e: Bytes)
    requires |table| == MAX_CANDIDATES * (limit + CANDIDATE_TAIL) && i < MAX_CANDIDATES
    ensures |e| == limit + CANDIDATE_TAIL
  {
    var stride := limit + CANDIDATE_TAIL;
    if i == 0 then table[..stride] else if i == 1 then table[stride..2 * stride] else table[2 * stride..]
  }

  /** A count byte above three counts as three. */
  function DecodeCandidates(data: Bytes, layout: Layout, arrayField: string,
                            countField: string): Result<seq<Candidate>, DecodeError> {
    var limit :- NameLimit(layout);
    var table :- ReadBytes(data, layout, arrayField, MAX_CANDIDATES * (limit + CANDIDATE_TAIL));
    var count :- ReadNat(data, layout, countField, 1);
    Success(ReadCandidates(table, limit, Min(count, MAX_CANDIDATES)))
  }

  /** All-zero spells "not set". */
  function DecodeHash(data: Bytes, layout: Layout, field: string): Result<Option<Bytes>, DecodeError> {
    var bytes :- ReadBytes(data, layout, field, HASH_LENGTH);
    Success(if bytes == Zeros(HASH_LENGTH) then None else Some(bytes))
  }

  function DecodeKey(data: Bytes, layout: Layout, field: string): Result<Option<Address>, DecodeError> {
    var a :- ReadAddress(data, layout, field);
    Success(if a == 0 then None else Some(a))
  }

  function Decode(data: Bytes, layout: Layout): Result<Dispute, DecodeError> {
    if |data| < DISCRIMINATOR_LENGTH || data[..DISCRIMINATOR_LENGTH] != DISCRIMINATOR then Failure(NotThisAccount)
    else if |data| != layout.size then Failure(WrongSize)
    else
      var lease :- ReadAddress(data, layout, "lease");
      var landlordCandidates :- DecodeCandidates(data, layout, "landlord_candidates", "landlord_count");
      var tenantCandidates :- DecodeCandidates(data, layout, "tenant_candidates", "tenant_count");
      var landlordPick :- DecodeHash(data, layout, "landlord_pick");
      var tenantPick :- DecodeHash(data, layout, "tenant_pick");
      var agreedNameHash :- DecodeHash(data, layout, "agreed_name_hash");
      var agreedFee :- ReadNat(data, layout, "agreed_fee", 8);
      var proposedKey :- DecodeKey(data, layout, "proposed_key");
      var keyProposer :- DecodeKey(data, layout, "key_proposer");
      var landlordKeyProposals :- ReadNat(data, layout, "landlord_key_proposals", 1);
      var tenantKeyProposals :- ReadNat(data, layout, "tenant_key_proposals", 1);
      var appraiser :- DecodeKey(data, layout, "appraiser");
      var selectionDeadline :- ReadInt64(data, layout, "selection_deadline");
      var verdictDeadline :- ReadInt64(data, layout, "verdict_deadline");
      Success(Dispute(lease, landlordCandidates, tenantCandidates, landlordPick, tenantPick, agreedNameHash, agreedFee,
                      proposedKey, keyProposer, landlordKeyProposals, tenantKeyProposals, appraiser,
                      selectionDeadline, verdictDeadline))
  }

  // ---- writing ----

  predicate CandidateFits(c: Candidate, limit: nat) {
    |c.name| <= Min(limit, 255) && |c.nameHash| == HASH_LENGTH && c.fee < Pow256(8)
  }

  predicate CandidatesFit(cs: seq<Candidate>, limit: nat) {
    |cs| <= MAX_CANDIDATES && forall i :: 0 <= i < |cs| ==> CandidateFits(cs[i], limit)
  }

  function CandidateBytes(c: Candidate, limit: nat): (b: Bytes)
    requires CandidateFits(c, limit)
    ensures |b| == limit + CANDIDATE_TAIL
  {
    c.name + Zeros(limit - |c.name|) + [|c.name|] + c.nameHash + ToLittleEndian(c.fee, 8)
  }

  /** The slot of candidate `i`; empty slots are zero. */
  function Slot(cs: seq<Candidate>, limit: nat, i: nat): (b: Bytes)
    requires CandidatesFit(cs, limit)
    ensures |b| == limit + CANDIDATE_TAIL
  {
    if i < |cs| then CandidateBytes(cs[i], limit) else Zeros(limit + CANDIDATE_TAIL)
  }

  function ArrayBytes(cs: seq<Candidate>, limit: nat): (b: Bytes)
    requires CandidatesFit(cs, limit)
    ensures |b| == MAX_CANDIDATES * (limit + CANDIDATE_TAIL)
  {
    Slot(cs, limit, 0) + Slot(cs, limit, 1) + Slot(cs, limit, 2)
  }

  function HashBytes(h: Option<Bytes>): Bytes {
    match h case Some(bytes) => bytes case None => Zeros(HASH_LENGTH)
  }

  function KeyBytes(k: Option<Address>): Bytes {
    ToBigEndian(match k case Some(a) => a case None => 0, 32)
  }

  predicate HashFits(h: Option<Bytes>) {
    h.Some? ==> |h.value| == HASH_LENGTH && h.value != Zeros(HASH_LENGTH)
  }

  predicate KeyFits(k: Option<Address>) {
    k.Some? ==> 0 < k.value < Pow256(32)
  }

  predicate InRange(d: Dispute, limit: nat) {
    && d.lease < Pow256(32) && CandidatesFit(d.landlordCandidates, limit) && CandidatesFit(d.tenantCandidates, limit)
    && HashFits(d.landlordPick) && HashFits(d.tenantPick) && HashFits(d.agreedNameHash) && d.agreedFee < Pow256(8)
    && KeyFits(d.proposedKey) && KeyFits(d.keyProposer) && d.landlordKeyProposals < Pow256(1)
    && d.tenantKeyProposals < Pow256(1)
    && KeyFits(d.appraiser) && -TWO_63 <= d.selectionDeadline < TWO_63 && -TWO_63 <= d.verdictDeadline < TWO_63
  }

  // ---- candidates survive ----

  lemma CandidateReads(c: Candidate, limit: nat)
    requires CandidateFits(c, limit)
    ensures ReadCandidate(CandidateBytes(c, limit), limit) == c
  {
    var e := CandidateBytes(c, limit);
    LittleEndianRoundTrip(c.fee, 8);
    hide ToLittleEndian, LittleEndian;
    assert e[limit] == |c.name|;
    assert e[..|c.name|] == c.name;
    assert e[limit + 1..limit + 33] == c.nameHash;
    assert e[limit + 33..limit + 41] == ToLittleEndian(c.fee, 8);
  }

  lemma EntryIsSlot(cs: seq<Candidate>, limit: nat, i: nat)
    requires CandidatesFit(cs, limit) && i < MAX_CANDIDATES
    ensures Entry(ArrayBytes(cs, limit), limit, i) == Slot(cs, limit, i)
  {
    hide Slot;
  }

  /** What is read from a written array is what was written, up to three candidates. */
  lemma CandidatesRead(cs: seq<Candidate>, limit: nat)
    requires CandidatesFit(cs, limit)
    ensures ReadCandidates(ArrayBytes(cs, limit), limit, |cs|) == cs
  {
    forall i | 0 <= i < |cs| ensures ReadCandidate(Entry(ArrayBytes(cs, limit), limit, i), limit) == cs[i] {
      EntryIsSlot(cs, limit, i);
      CandidateReads(cs[i], limit);
    }
  }

  lemma CandidatesDecode(data: Bytes, layout: Layout, arrayField: string, countField: string, cs: seq<Candidate>,
                         limit: nat)
    requires CandidatesFit(cs, limit) && NameLimit(layout) == Success(limit)
    requires Holds(data, layout, arrayField, ArrayBytes(cs, limit))
      && Holds(data, layout, countField, ToLittleEndian(|cs|, 1))
    ensures DecodeCandidates(data, layout, arrayField, countField) == Success(cs)
  {
    hide ReadBytes, ReadNat, ReadCandidates, ArrayBytes, NameLimit, Holds, CandidateFits, Pow256, ToLittleEndian;
    ReadsBytes(data, layout, arrayField, ArrayBytes(cs, limit));
    OneByte();
    ReadsNat(data, layout, countField, 1, |cs|);
    CandidatesRead(cs, limit);
  }

  lemma OneByte()
    ensures Pow256(1) == 256
  {
    assert Pow256(1) == 256 * Pow256(0);
  }

  lemma HashDecodes(data: Bytes, layout: Layout, field: string, h: Option<Bytes>)
    requires HashFits(h) && Holds(data, layout, field, HashBytes(h))
    ensures DecodeHash(data, layout, field) == Success(h)
  {
    ReadsBytes(data, layout, field, HashBytes(h));
  }

  lemma KeyDecodes(data: Bytes, layout: Layout, field: string, k: Option<Address>)
    requires KeyFits(k) && Holds(data, layout, field, KeyBytes(k))
    ensures DecodeKey(data, layout, field) == Success(k)
  {
    ReadsAddress(data, layout, field, match k case Some(a) => a case None => 0);
  }

  // ---- the whole record ----

  function Contents(d: Dispute, limit: nat): map<string, Bytes>
    requires InRange(d, limit)
  {
    map["lease" := ToBigEndian(d.lease, 32),
        "landlord_candidates" := ArrayBytes(d.landlordCandidates, limit),
        "tenant_candidates" := ArrayBytes(d.tenantCandidates, limit),
        "landlord_count" := ToLittleEndian(|d.landlordCandidates|, 1),
        "tenant_count" := ToLittleEndian(|d.tenantCandidates|, 1),
        "landlord_pick" := HashBytes(d.landlordPick), "tenant_pick" := HashBytes(d.tenantPick),
        "agreed_name_hash" := HashBytes(d.agreedNameHash), "agreed_fee" := ToLittleEndian(d.agreedFee, 8),
        "proposed_key" := KeyBytes(d.proposedKey), "key_proposer" := KeyBytes(d.keyProposer),
        "landlord_key_proposals" := ToLittleEndian(d.landlordKeyProposals, 1),
        "tenant_key_proposals" := ToLittleEndian(d.tenantKeyProposals, 1),
        "appraiser" := KeyBytes(d.appraiser), "selection_deadline" := ToLittleEndian(Unsigned(d.selectionDeadline), 8),
        "verdict_deadline" := ToLittleEndian(Unsigned(d.verdictDeadline), 8)]
  }

  predicate Represents(data: Bytes, layout: Layout, d: Dispute, limit: nat)
    requires InRange(d, limit)
  {
    && |data| == layout.size && DISCRIMINATOR_LENGTH <= |data| && data[..DISCRIMINATOR_LENGTH] == DISCRIMINATOR
    && Holds(data, layout, "lease", ToBigEndian(d.lease, 32))
    && Holds(data, layout, "landlord_candidates", ArrayBytes(d.landlordCandidates, limit))
    && Holds(data, layout, "tenant_candidates", ArrayBytes(d.tenantCandidates, limit))
    && Holds(data, layout, "landlord_count", ToLittleEndian(|d.landlordCandidates|, 1))
    && Holds(data, layout, "tenant_count", ToLittleEndian(|d.tenantCandidates|, 1))
    && Holds(data, layout, "landlord_pick", HashBytes(d.landlordPick))
    && Holds(data, layout, "tenant_pick", HashBytes(d.tenantPick))
    && Holds(data, layout, "agreed_name_hash", HashBytes(d.agreedNameHash))
    && Holds(data, layout, "agreed_fee", ToLittleEndian(d.agreedFee, 8))
    && Holds(data, layout, "proposed_key", KeyBytes(d.proposedKey))
    && Holds(data, layout, "key_proposer", KeyBytes(d.keyProposer))
    && Holds(data, layout, "landlord_key_proposals", ToLittleEndian(d.landlordKeyProposals, 1))
    && Holds(data, layout, "tenant_key_proposals", ToLittleEndian(d.tenantKeyProposals, 1))
    && Holds(data, layout, "appraiser", KeyBytes(d.appraiser))
    && Holds(data, layout, "selection_deadline", ToLittleEndian(Unsigned(d.selectionDeadline), 8))
    && Holds(data, layout, "verdict_deadline", ToLittleEndian(Unsigned(d.verdictDeadline), 8))
  }

  /** An account that holds a record's bytes decodes to that record. */
  lemma Decodes(data: Bytes, layout: Layout, d: Dispute, limit: nat)
    requires NameLimit(layout) == Success(limit) && InRange(d, limit) && Represents(data, layout, d, limit)
    ensures Decode(data, layout) == Success(d)
  {
    hide DecodeCandidates, DecodeHash, DecodeKey, ReadAddress, ReadNat, ReadInt64, ReadBytes, Holds, ToLittleEndian,
      ToBigEndian,
      Unsigned, Pow256, HashBytes, KeyBytes, ArrayBytes, CandidatesFit, HashFits, KeyFits, NameLimit;
    ReadsAddress(data, layout, "lease", d.lease);
    CandidatesDecode(data, layout, "landlord_candidates", "landlord_count", d.landlordCandidates, limit);
    CandidatesDecode(data, layout, "tenant_candidates", "tenant_count", d.tenantCandidates, limit);
    HashDecodes(data, layout, "landlord_pick", d.landlordPick);
    HashDecodes(data, layout, "tenant_pick", d.tenantPick);
    HashDecodes(data, layout, "agreed_name_hash", d.agreedNameHash);
    ReadsNat(data, layout, "agreed_fee", 8, d.agreedFee);
    KeyDecodes(data, layout, "proposed_key", d.proposedKey);
    KeyDecodes(data, layout, "key_proposer", d.keyProposer);
    ReadsNat(data, layout, "landlord_key_proposals", 1, d.landlordKeyProposals);
    ReadsNat(data, layout, "tenant_key_proposals", 1, d.tenantKeyProposals);
    KeyDecodes(data, layout, "appraiser", d.appraiser);
    ReadsInt64(data, layout, "selection_deadline", d.selectionDeadline);
    ReadsInt64(data, layout, "verdict_deadline", d.verdictDeadline);
  }

  /** The tenant's candidates directly follow the landlord's, three of `limit + 41` bytes. */
  ghost predicate ArraysAdjacent(fields: seq<Field>, sizes: seq<nat>, limit: nat)
    requires |fields| == |sizes|
  {
    exists k ::
      0 <= k < |fields| - 1 && fields[k].name == "landlord_candidates" && fields[k + 1].name == "tenant_candidates"
                && sizes[k] == MAX_CANDIDATES * (limit + CANDIDATE_TAIL)
  }

  /** The stride derived from the offsets is the candidate's size. */
  lemma StrideIsDerived(fields: seq<Field>, sizes: seq<nat>, limit: nat)
    requires |fields| == |sizes| && Named(fields) && ArraysAdjacent(fields, sizes, limit)
    ensures NameLimit(LayoutOf(fields, sizes)) == Success(limit)
  {
    var k :| 0 <= k < |fields| - 1 && fields[k].name == "landlord_candidates"
      && fields[k + 1].name == "tenant_candidates"
             && sizes[k] == MAX_CANDIDATES * (limit + CANDIDATE_TAIL);
    OffsetsAreStarts(fields, sizes);
    StartNext(sizes, k);
    hide Start, NameLimit, Offsets;
    StrideOf(LayoutOf(fields, sizes), Start(sizes, k), limit);
  }

  lemma StrideOf(layout: Layout, at: nat, limit: nat)
    requires "landlord_candidates" in layout.offsets && layout.offsets["landlord_candidates"] == at
    requires "tenant_candidates" in layout.offsets
      && layout.offsets["tenant_candidates"] == at + MAX_CANDIDATES * (limit + CANDIDATE_TAIL)
    ensures NameLimit(layout) == Success(limit)
  {
  }

  /** A dispute written in the order of any IDL that has these fields, its two candidate arrays adjacent,
      decodes to the same dispute: every candidate a side, up to three, and every choice. */
  lemma RoundTrip(d: Dispute, limit: nat, others: map<string, Bytes>, fields: seq<Field>, sizes: seq<nat>)
    requires InRange(d, limit) && Fills(others + Contents(d, limit), fields, sizes)
      && ArraysAdjacent(fields, sizes, limit)
    requires forall name :: name in Contents(d, limit) ==> HasField(fields, name)
    ensures Decode(Encode(DISCRIMINATOR, PartsOf(fields, others + Contents(d, limit))), LayoutOf(fields, sizes))
      == Success(d)
  {
    var contents := others + Contents(d, limit);
    var data, layout := Encode(DISCRIMINATOR, PartsOf(fields, contents)), LayoutOf(fields, sizes);
    StrideIsDerived(fields, sizes, limit);
    hide Encode, PartsOf, LayoutOf, Contents, Decode, Holds, InRange, NameLimit;
    forall name | name in Contents(d, limit) ensures Holds(data, layout, name, Contents(d, limit)[name]) {
      var k :| 0 <= k < |fields| && fields[k].name == name;
      EncodedHolds(DISCRIMINATOR, contents, fields, sizes, k);
    }
    assert |fields| > 0;
    EncodedHolds(DISCRIMINATOR, contents, fields, sizes, 0);
    LayoutHasRoom(fields, sizes);
    AllHeld(data, layout, d, limit);
    Decodes(data, layout, d, limit);
  }

  lemma AllHeld(data: Bytes, layout: Layout, d: Dispute, limit: nat)
    requires InRange(d, limit) && |data| == layout.size && DISCRIMINATOR_LENGTH <= |data|
      && data[..DISCRIMINATOR_LENGTH] == DISCRIMINATOR
    requires forall name :: name in Contents(d, limit) ==> Holds(data, layout, name, Contents(d, limit)[name])
    ensures Represents(data, layout, d, limit)
  {
    ContentsBegin(d, limit);
    ContentsEnd(d, limit);
    hide Holds, ToLittleEndian, ToBigEndian, Unsigned, Pow256, HashBytes, KeyBytes, ArrayBytes, InRange, Contents;
    var c := Contents(d, limit);
    assert Holds(data, layout, "lease", c["lease"]) && Holds(data, layout, "appraiser", c["appraiser"]);
  }

  lemma ContentsBegin(d: Dispute, limit: nat)
    requires InRange(d, limit)
    ensures var c := Contents(d, limit);
      && "lease" in c && c["lease"] == ToBigEndian(d.lease, 32)
      && "landlord_candidates" in c && c["landlord_candidates"] == ArrayBytes(d.landlordCandidates, limit)
      && "tenant_candidates" in c && c["tenant_candidates"] == ArrayBytes(d.tenantCandidates, limit)
      && "landlord_count" in c && c["landlord_count"] == ToLittleEndian(|d.landlordCandidates|, 1)
      && "tenant_count" in c && c["tenant_count"] == ToLittleEndian(|d.tenantCandidates|, 1)
      && "landlord_pick" in c && c["landlord_pick"] == HashBytes(d.landlordPick)
      && "tenant_pick" in c && c["tenant_pick"] == HashBytes(d.tenantPick)
      && "agreed_name_hash" in c && c["agreed_name_hash"] == HashBytes(d.agreedNameHash)
  {
    hide ToLittleEndian, ToBigEndian, Unsigned, Pow256, HashBytes, KeyBytes, ArrayBytes, CandidatesFit, HashFits,
      KeyFits;
  }

  lemma ContentsEnd(d: Dispute, limit: nat)
    requires InRange(d, limit)
    ensures var c := Contents(d, limit);
      && "agreed_fee" in c && c["agreed_fee"] == ToLittleEndian(d.agreedFee, 8)
      && "proposed_key" in c && c["proposed_key"] == KeyBytes(d.proposedKey)
      && "key_proposer" in c && c["key_proposer"] == KeyBytes(d.keyProposer)
      && "landlord_key_proposals" in c && c["landlord_key_proposals"] == ToLittleEndian(d.landlordKeyProposals, 1)
      && "tenant_key_proposals" in c && c["tenant_key_proposals"] == ToLittleEndian(d.tenantKeyProposals, 1)
      && "appraiser" in c && c["appraiser"] == KeyBytes(d.appraiser)
      && "selection_deadline" in c && c["selection_deadline"] == ToLittleEndian(Unsigned(d.selectionDeadline), 8)
      && "verdict_deadline" in c && c["verdict_deadline"] == ToLittleEndian(Unsigned(d.verdictDeadline), 8)
  {
    hide ToLittleEndian, ToBigEndian, Unsigned, Pow256, HashBytes, KeyBytes, ArrayBytes, CandidatesFit, HashFits,
      KeyFits;
  }

  /** No decoded choice is the all-zero value: that always reads as not set. */
  lemma UnsetIsNone(data: Bytes, layout: Layout, field: string)
    ensures DecodeHash(data, layout, field).Success? ==> HashFits(DecodeHash(data, layout, field).value)
    ensures DecodeKey(data, layout, field).Success? ==> KeyFits(DecodeKey(data, layout, field).value)
  {
    ReadFits(data, layout, field, 32);
  }
}
