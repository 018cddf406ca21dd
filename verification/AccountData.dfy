/** Reading fields out of account bytes by their layout, and writing them. */
module AccountData {
  import opened Basics
  import opened Layout

  datatype DecodeError =
    | NotThisAccount | WrongSize | MissingField(name: string) | OutOfRange(name: string)
    | UnknownStatus(value: nat) | BadStride

  /** The bytes `[at, at + width)`, if they are all there. */
  function Slice(data: Bytes, at: nat, width: nat): Bytes
    requires at + width <= |data|
  {
    data[at..at + width]
  }

  function ReadBytes(data: Bytes, layout: Layout, field: string, width: nat): (r: Result<Bytes, DecodeError>)
    ensures r.Success? ==> |r.value| == width
  {
    if field !in layout.offsets then Failure(MissingField(field))
    else if layout.offsets[field] + width > |data| then Failure(OutOfRange(field))
    else Success(Slice(data, layout.offsets[field], width))
  }

  function ReadNat(data: Bytes, layout: Layout, field: string, width: nat): Result<nat, DecodeError> {
    var bytes :- ReadBytes(data, layout, field, width);
    Success(LittleEndian(bytes))
  }

  function ReadAddress(data: Bytes, layout: Layout, field: string): Result<Address, DecodeError> {
    var bytes :- ReadBytes(data, layout, field, 32);
    Success(BigEndian(bytes))
  }

  const TWO_63: int := 0x8000_0000_0000_0000
  const TWO_64: int := 0x1_0000_0000_0000_0000

  /** Two's complement, 64 bits. */
  function Signed(n: nat): int {
    if n < TWO_63 then n else n - TWO_64
  }

  function Unsigned(i: int): nat
    requires -TWO_63 <= i < TWO_63
  {
    if i >= 0 then i else i + TWO_64
  }

  function ReadInt64(data: Bytes, layout: Layout, field: string): Result<int, DecodeError> {
    var n :- ReadNat(data, layout, field, 8);
    Success(Signed(n))
  }

  // ---- what a reading says about the bytes ----

  /** The field's bytes are `bytes`. */
  predicate Holds(data: Bytes, layout: Layout, field: string, bytes: Bytes) {
    && field in layout.offsets && layout.offsets[field] + |bytes| <= |data|
    && Slice(data, layout.offsets[field], |bytes|) == bytes
  }

  lemma ReadsBytes(data: Bytes, layout: Layout, field: string, bytes: Bytes)
    ensures Holds(data, layout, field, bytes) <==> ReadBytes(data, layout, field, |bytes|) == Success(bytes)
  {
  }

  lemma ReadsNat(data: Bytes, layout: Layout, field: string, width: nat, n: nat)
    requires n < Pow256(width)
    ensures Holds(data, layout, field, ToLittleEndian(n, width)) <==> ReadNat(data, layout, field, width) == Success(n)
  {
    ReadsBytes(data, layout, field, ToLittleEndian(n, width));
    LittleEndianRoundTrip(n, width);
    var r := ReadBytes(data, layout, field, width);
    if r.Success? {
      LittleEndianBytes(r.value);
    }
  }

  lemma ReadsAddress(data: Bytes, layout: Layout, field: string, a: Address)
    requires a < Pow256(32)
    ensures Holds(data, layout, field, ToBigEndian(a, 32)) <==> ReadAddress(data, layout, field) == Success(a)
  {
    ReadsBytes(data, layout, field, ToBigEndian(a, 32));
    BigEndianRoundTrip(a, 32);
    var r := ReadBytes(data, layout, field, 32);
    if r.Success? {
      BigEndianBytes(r.value);
    }
  }

  lemma Pow8()
    ensures Pow256(8) == TWO_64
  {
    assert Pow256(4) == 256 * (256 * (256 * (256 * Pow256(0))));
    assert Pow256(8) == 256 * (256 * (256 * (256 * Pow256(4))));
  }

  lemma ReadsInt64(data: Bytes, layout: Layout, field: string, i: int)
    requires -TWO_63 <= i < TWO_63
    ensures Holds(data, layout, field, ToLittleEndian(Unsigned(i), 8)) <==> ReadInt64(data, layout, field) == Success(i)
  {
    Pow8();
    ReadsNat(data, layout, field, 8, Unsigned(i));
    var r := ReadBytes(data, layout, field, 8);
    if r.Success? {
      LittleEndianBytes(r.value);
    }
  }

  /** What is read always has the size of its field, so every reading can be written back. */
  lemma ReadFits(data: Bytes, layout: Layout, field: string, width: nat)
    ensures ReadNat(data, layout, field, width).Success? ==> ReadNat(data, layout, field, width).value < Pow256(width)
    ensures ReadAddress(data, layout, field).Success? ==> ReadAddress(data, layout, field).value < Pow256(32)
    ensures ReadInt64(data, layout, field).Success? ==> -TWO_63 <= ReadInt64(data, layout, field).value < TWO_63
  {
    hide *;
    NatFits(data, layout, field, width);
    AddressFits(data, layout, field);
    Int64Fits(data, layout, field);
  }

  lemma AddressFits(data: Bytes, layout: Layout, field: string)
    ensures ReadAddress(data, layout, field).Success? ==> ReadAddress(data, layout, field).value < Pow256(32)
  {
    var r := ReadBytes(data, layout, field, 32);
    if r.Success? {
      BigEndianBytes(r.value);
    }
    hide ReadBytes, Pow256;
  }

  lemma Int64Fits(data: Bytes, layout: Layout, field: string)
    ensures ReadInt64(data, layout, field).Success? ==> -TWO_63 <= ReadInt64(data, layout, field).value < TWO_63
  {
    hide ReadNat, Pow256;
    NatFits(data, layout, field, 8);
    Pow8();
  }

  lemma NatFits(data: Bytes, layout: Layout, field: string, width: nat)
    ensures ReadNat(data, layout, field, width).Success? ==> ReadNat(data, layout, field, width).value < Pow256(width)
  {
    var r := ReadBytes(data, layout, field, width);
    if r.Success? {
      LittleEndianBytes(r.value);
    }
  }

  // ---- writing a whole account ----

  function Lengths(parts: seq<Bytes>): seq<nat> {
    seq(|parts|, k requires 0 <= k < |parts| => |parts[k]|)
  }

  /** The account's bytes: its discriminator, then its fields in order. */
  function Encode(discriminator: Bytes, parts: seq<Bytes>): Bytes {
    discriminator + Concat(parts)
  }

  lemma {:induction false} ConcatLength(parts: seq<Bytes>)
    ensures |Concat(parts)| == Sum(Lengths(parts))
  {
    if parts != [] {
      var n := |parts| - 1;
      ConcatLength(parts[..n]);
      ConcatLast(parts[..n], parts[n]);
      assert parts == parts[..n] + [parts[n]];
      assert Lengths(parts)[..n] == Lengths(parts[..n]);
    }
  }

  /** Each field's bytes lie where its layout says, and the account ends where its layout says. */
  lemma {:induction false} EncodedField(discriminator: Bytes, parts: seq<Bytes>, k: nat)
    requires |discriminator| == DISCRIMINATOR_LENGTH && k < |parts|
    ensures var sizes, data := Lengths(parts), Encode(discriminator, parts);
      && |data| == Start(sizes, |sizes|) && Start(sizes, k) + |parts[k]| <= |data|
      && Slice(data, Start(sizes, k), |parts[k]|) == parts[k]
      && data[..DISCRIMINATOR_LENGTH] == discriminator
  {
    var n := |parts| - 1;
    var sizes, data := Lengths(parts), Encode(discriminator, parts);
    ConcatLength(parts);
    ConcatLast(parts[..n], parts[n]);
    assert parts == parts[..n] + [parts[n]];
    assert sizes[..|sizes|] == sizes;
    FieldsInside(sizes, k);
    if k == n {
      ConcatLength(parts[..n]);
      assert Lengths(parts[..n]) == sizes[..n];
    } else {
      EncodedField(discriminator, parts[..n], k);
      assert Lengths(parts[..n]) == sizes[..n];
      StartOfPrefix(sizes, n, k);
      assert data == Encode(discriminator, parts[..n]) + parts[n];
      assert parts[..n][k] == parts[k];
    }
  }

  /** The bytes of each field, in the order of the IDL. */
  function PartsOf(fields: seq<Field>, contents: map<string, Bytes>): seq<Bytes>
    requires forall k :: 0 <= k < |fields| ==> fields[k].name in contents
  {
    seq(|fields|, k requires 0 <= k < |fields| => contents[fields[k].name])
  }

  /** The contents have a value for every field, of its size. */
  ghost predicate Fills(contents: map<string, Bytes>, fields: seq<Field>, sizes: seq<nat>) {
    |fields| == |sizes| && Named(fields)
    && forall k :: 0 <= k < |fields| ==> fields[k].name in contents && |contents[fields[k].name]| == sizes[k]
  }

  /** An account written in the order of the IDL holds every field where the computed layout says. */
  lemma EncodedHolds(discriminator: Bytes, contents: map<string, Bytes>, fields: seq<Field>, sizes: seq<nat>, k: nat)
    requires |discriminator| == DISCRIMINATOR_LENGTH && Fills(contents, fields, sizes) && k < |fields|
    ensures var data, layout := Encode(discriminator, PartsOf(fields, contents)), LayoutOf(fields, sizes);
      && |data| == layout.size && data[..DISCRIMINATOR_LENGTH] == discriminator
      && Holds(data, layout, fields[k].name, contents[fields[k].name])
  {
    var parts := PartsOf(fields, contents);
    assert Lengths(parts) == sizes;
    OffsetsAreStarts(fields, sizes);
    EncodedField(discriminator, parts, k);
  }

  ghost predicate HasField(fields: seq<Field>, name: string) {
    exists k :: 0 <= k < |fields| && fields[k].name == name
  }

  lemma LayoutHasRoom(fields: seq<Field>, sizes: seq<nat>)
    requires |fields| == |sizes|
    ensures LayoutOf(fields, sizes).size >= DISCRIMINATOR_LENGTH
  {
  }

  // ---- rewriting one field ----

  function Write(data: Bytes, at: nat, bytes: Bytes): Bytes
    requires at + |bytes| <= |data|
  {
    data[..at] + bytes + data[at + |bytes|..]
  }

  /** Rewriting field `j` of a computed layout, with bytes of its size, leaves every other field's bytes, and
      the discriminator, as they were. */
  lemma RewritingOneField(data: Bytes, fields: seq<Field>, sizes: seq<nat>, j: nat, bytes: Bytes, k: nat, was: Bytes)
    requires |fields| == |sizes| && Named(fields) && j < |fields| && k < |fields| && |bytes| == sizes[j]
      && |was| <= sizes[k]
    requires |data| == LayoutOf(fields, sizes).size
    ensures Start(sizes, j) + |bytes| <= |data|
    ensures var t, layout := Write(data, Start(sizes, j), bytes), LayoutOf(fields, sizes);
      && |t| == |data| && t[..DISCRIMINATOR_LENGTH] == data[..DISCRIMINATOR_LENGTH]
      && Holds(t, layout, fields[j].name, bytes)
      && (k != j ==> (Holds(t, layout, fields[k].name, was) <==> Holds(data, layout, fields[k].name, was)))
  {
    FieldsInside(sizes, j);
    FieldsInside(sizes, k);
    OffsetsAreStarts(fields, sizes);
    var t := Write(data, Start(sizes, j), bytes);
    if k < j {
      FieldsApart(sizes, k, j);
      assert Slice(t, Start(sizes, k), |was|) == Slice(data, Start(sizes, k), |was|);
    } else if j < k {
      FieldsApart(sizes, j, k);
      assert Slice(t, Start(sizes, k), |was|) == Slice(data, Start(sizes, k), |was|);
    }
  }

  /** The field is there, with the size the reader expects. */
  ghost predicate Sized(fields: seq<Field>, sizes: seq<nat>, name: string, width: nat)
    requires |fields| == |sizes|
  {
    exists k :: 0 <= k < |fields| && fields[k].name == name && sizes[k] == width
  }

  lemma FieldReadable(data: Bytes, fields: seq<Field>, sizes: seq<nat>, name: string, width: nat)
    requires |fields| == |sizes| && Named(fields) && Sized(fields, sizes, name, width)
      && |data| == LayoutOf(fields, sizes).size
    ensures ReadBytes(data, LayoutOf(fields, sizes), name, width).Success?
  {
    OffsetsAreStarts(fields, sizes);
    var k :| 0 <= k < |fields| && fields[k].name == name && sizes[k] == width;
    FieldsInside(sizes, k);
  }

  /** Rewriting field `j` leaves what is read from a field of another name as it was. */
  lemma SameReading(data: Bytes, fields: seq<Field>, sizes: seq<nat>, j: nat, bytes: Bytes, name: string, width: nat)
    requires |fields| == |sizes| && Named(fields) && j < |fields| && |bytes| == sizes[j]
      && |data| == LayoutOf(fields, sizes).size
    requires Sized(fields, sizes, name, width)
    ensures Start(sizes, j) + |bytes| <= |data|
    ensures name != fields[j].name ==>
              var t, layout := Write(data, Start(sizes, j), bytes), LayoutOf(fields, sizes);
              && ReadBytes(t, layout, name, width) == ReadBytes(data, layout, name, width)
              && ReadNat(t, layout, name, width) == ReadNat(data, layout, name, width)
              && (width == 32 ==> ReadAddress(t, layout, name) == ReadAddress(data, layout, name))
              && (width == 8 ==> ReadInt64(t, layout, name) == ReadInt64(data, layout, name))
  {
    FieldsInside(sizes, j);
    var layout := LayoutOf(fields, sizes);
    var k :| 0 <= k < |fields| && fields[k].name == name && sizes[k] == width;
    if name != fields[j].name {
      FieldsInside(sizes, k);
      OffsetsAreStarts(fields, sizes);
      var was := ReadBytes(data, layout, name, width).value;
      RewritingOneField(data, fields, sizes, j, bytes, k, was);
      hide LayoutOf, Write, Start, Offsets, Sized, Named, Holds;
      ReadsBytes(data, layout, name, was);
      ReadsBytes(Write(data, Start(sizes, j), bytes), layout, name, was);
    }
  }
}
