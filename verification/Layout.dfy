/** Account layouts computed from the program's IDL (backend/src/layout.ts): where each field of a struct
    account lies in its bytes. */
module Layout {
  import opened Basics

  datatype IdlType =
    | Scalar(name: string)
    | Array(element: IdlType, count: nat)
    | Optional(inner: IdlType)
    | Defined(name: string)
    | Vec(element: IdlType)

  datatype Field = Field(name: string, kind: IdlType)

  datatype Variant = Variant(fields: seq<Field>)

  datatype Body = Struct(fields: seq<Field>) | Enum(variants: seq<Variant>)

  datatype TypeDef = TypeDef(name: string, body: Body)

  type Idl = seq<TypeDef>

  datatype Layout = Layout(size: nat, offsets: map<string, nat>)

  datatype Error = UnsupportedScalar(name: string) | TypeMissing(name: string) | VariableLength | NoStruct(name: string)

  const DISCRIMINATOR_LENGTH := 8

  function ScalarSize(name: string): Option<nat> {
    if name in ["bool", "u8", "i8"] then Some(1)
    else if name in ["u16", "i16"] then Some(2)
    else if name in ["u32", "i32", "f32"] then Some(4)
    else if name in ["u64", "i64", "f64"] then Some(8)
    else if name in ["u128", "i128"] then Some(16)
    else if name in ["pubkey", "publicKey"] then Some(32)
    else None
  }

  lemma ScalarSizes()
    ensures ScalarSize("pubkey") == Some(32) && ScalarSize("u64") == Some(8) && ScalarSize("i64") == Some(8)
    ensures ScalarSize("u32") == Some(4) && ScalarSize("u16") == Some(2) && ScalarSize("u8") == Some(1)
  {
  }

  /** The first definition of a name. */
  function Find(idl: Idl, name: string): (body: Option<Body>)
    ensures body.Some? ==> exists k :: 0 <= k < |idl| && idl[k] == TypeDef(name, body.value)
  {
    if idl == [] then None
    else if idl[0].name == name then
      assert idl[0] == TypeDef(name, idl[0].body);
      Some(idl[0].body)
    else
      var rest := Find(idl[1..], name);
      assert forall k :: 0 <= k < |idl| - 1 ==> idl[1..][k] == idl[k + 1];
      rest
  }

  // ---- acyclic IDLs: each type refers only to types of smaller rank ----

  ghost predicate Below(t: IdlType, rank: string -> nat, bound: nat) {
    match t
    case Scalar(_) => true
    case Array(e, _) => Below(e, rank, bound)
    case Optional(i) => Below(i, rank, bound)
    case Defined(n) => rank(n) < bound
    case Vec(e) => Below(e, rank, bound)
  }

  ghost predicate FieldsBelow(fields: seq<Field>, rank: string -> nat, bound: nat) {
    forall k :: 0 <= k < |fields| ==> Below(fields[k].kind, rank, bound)
  }

  ghost predicate BodyBelow(b: Body, rank: string -> nat, bound: nat) {
    match b
    case Struct(fields) => FieldsBelow(fields, rank, bound)
    case Enum(variants) => forall v :: 0 <= v < |variants| ==> FieldsBelow(variants[v].fields, rank, bound)
  }

  ghost predicate Acyclic(idl: Idl, rank: string -> nat) {
    forall k :: 0 <= k < |idl| ==> BodyBelow(idl[k].body, rank, rank(idl[k].name))
  }

  // ---- sizes ----

  function SizeOf(t: IdlType, idl: Idl, ghost rank: string -> nat, ghost bound: nat): Result<nat, Error>
    requires Acyclic(idl, rank) && Below(t, rank, bound)
    decreases bound, t
  {
    match t
    case Scalar(n) => (match ScalarSize(n) case Some(size) => Success(size) case None => Failure(UnsupportedScalar(n)))
    case Array(e, count) =>
      (match SizeOf(e, idl, rank, bound) case Success(size) => Success(size * count) case Failure(why) => Failure(why))
    case Optional(i) =>
      (match SizeOf(i, idl, rank, bound) case Success(size) => Success(1 + size) case Failure(why) => Failure(why))
    case Vec(_) => Failure(VariableLength)
    case Defined(n) =>
      match Find(idl, n)
      case None => Failure(TypeMissing(n))
      case Some(Struct(fields)) => SizeOfFields(fields, idl, rank, rank(n))
      case Some(Enum(variants)) =>
        match LargestVariant(variants, idl, rank, rank(n))
        case Success(size) => Success(1 + size)
        case Failure(why) => Failure(why)
  }

  function SizeOfFields(fields: seq<Field>, idl: Idl, ghost rank: string -> nat, ghost bound: nat): Result<nat, Error>
    requires Acyclic(idl, rank) && FieldsBelow(fields, rank, bound)
    decreases bound, fields
  {
    if fields == [] then Success(0)
    else match SizeOf(fields[0].kind, idl, rank, bound)
      case Failure(why) => Failure(why)
      case Success(size) =>
        match SizeOfFields(fields[1..], idl, rank, bound)
        case Failure(why) => Failure(why)
        case Success(rest) => Success(size + rest)
  }

  function LargestVariant(variants: seq<Variant>, idl: Idl, ghost rank: string -> nat,
                          ghost bound: nat): Result<nat, Error>
    requires Acyclic(idl, rank) && BodyBelow(Enum(variants), rank, bound)
    decreases bound, variants
  {
    if variants == [] then Success(0)
    else match SizeOfFields(variants[0].fields, idl, rank, bound)
      case Failure(why) => Failure(why)
      case Success(size) =>
        match LargestVariant(variants[1..], idl, rank, bound)
        case Failure(why) => Failure(why)
        case Success(rest) => Success(if size > rest then size else rest)
  }

  /** The sizes of a struct's fields, or the first error among them. */
  function FieldSizes(fields: seq<Field>, idl: Idl, ghost rank: string -> nat, ghost bound: nat): (r: Result<seq<nat>,
                      Error>)
    requires Acyclic(idl, rank) && FieldsBelow(fields, rank, bound)
    ensures r.Success? ==> |r.value| == |fields|
  {
    if fields == [] then Success([])
    else match FieldSizes(fields[..|fields| - 1], idl, rank, bound)
      case Failure(why) => Failure(why)
      case Success(sizes) =>
        match SizeOf(fields[|fields| - 1].kind, idl, rank, bound)
        case Failure(why) => Failure(why)
        case Success(size) => Success(sizes + [size])
  }

  lemma SizeOfTail(fields: seq<Field>, i: nat, idl: Idl, rank: string -> nat, bound: nat, size: nat, rest: nat)
    requires Acyclic(idl, rank) && FieldsBelow(fields, rank, bound) && i < |fields|
    requires SizeOf(fields[i].kind, idl, rank, bound) == Success(size)
      && SizeOfFields(fields[i + 1..], idl, rank, bound) == Success(rest)
    ensures SizeOfFields(fields[i..], idl, rank, bound) == Success(size + rest)
  {
    assert fields[i..][1..] == fields[i + 1..] && fields[i..][0] == fields[i];
    hide SizeOf, Acyclic, FieldsBelow;
  }

  // ---- layouts ----

  function Sum(sizes: seq<nat>): nat {
    if sizes == [] then 0 else Sum(sizes[..|sizes| - 1]) + sizes[|sizes| - 1]
  }

  /** Where field `k` starts: behind the discriminator and the fields before it. */
  function Start(sizes: seq<nat>, k: nat): nat
    requires k <= |sizes|
  {
    DISCRIMINATOR_LENGTH + Sum(sizes[..k])
  }

  function Offsets(fields: seq<Field>, sizes: seq<nat>): map<string, nat>
    requires |fields| == |sizes|
  {
    if fields == [] then map[]
    else Offsets(fields[..|fields| - 1], sizes[..|sizes| - 1])[fields[|fields| - 1].name := Start(sizes, |sizes| - 1)]
  }

  function LayoutOf(fields: seq<Field>, sizes: seq<nat>): Layout
    requires |fields| == |sizes|
  {
    Layout(Start(sizes, |sizes|), Offsets(fields, sizes))
  }

  lemma SizeIsEnd(fields: seq<Field>, sizes: seq<nat>)
    requires |fields| == |sizes|
    ensures LayoutOf(fields, sizes).size == Start(sizes, |sizes|)
  {
  }

  lemma StartNext(sizes: seq<nat>, k: nat)
    requires k < |sizes|
    ensures Start(sizes, k + 1) == Start(sizes, k) + sizes[k]
  {
    assert sizes[..k + 1][..k] == sizes[..k];
  }

  lemma StartOfPrefix(sizes: seq<nat>, n: nat, k: nat)
    requires k <= n <= |sizes|
    ensures Start(sizes[..n], k) == Start(sizes, k)
  {
    assert sizes[..n][..k] == sizes[..k];
  }

  /** The layout of one struct account: an error exactly when a field has no size that could be derived. */
  method ComputeLayout(idl: Idl, account: string, ghost rank: string -> nat) returns (r: Result<Layout, Error>)
    requires Acyclic(idl, rank)
    ensures match Find(idl, account)
            case Some(Struct(fields)) =>
              && FieldsBelow(fields, rank, rank(account))
              && (match FieldSizes(fields, idl, rank, rank(account))
                  case Failure(why) => r == Failure(why)
                  case Success(sizes) => r == Success(LayoutOf(fields, sizes)))
            case _ => r == Failure(NoStruct(account))
  {
    var def := Find(idl, account);
    if def.None? || def.value.Enum? {
      return Failure(NoStruct(account));
    }
    var fields := def.value.fields;
    var offsets: map<string, nat> := map[];
    var at: nat := DISCRIMINATOR_LENGTH;
    ghost var sizes: seq<nat> := [];
    ghost var bound := rank(account);
    assert FieldsBelow(fields, rank, bound);
    assert fields[..0] == [];
    hide Acyclic, SizeOf;
    for k := 0 to |fields|
      invariant Laid(fields, k, idl, rank, bound, sizes, at, offsets)
    {
      var size := SizeOf(fields[k].kind, idl, rank, bound);
      if size.Failure? {
        StepFails(fields, k, idl, rank, bound, sizes, size.error);
        return Failure(size.error);
      }
      StepLays(fields, k, idl, rank, bound, sizes, at, offsets, size.value);
      hide Laid, Start;
      offsets := offsets[fields[k].name := at];
      at := at + size.value;
      sizes := sizes + [size.value];
    }
    assert fields[..|fields|] == fields;
    return Success(Layout(at, offsets));
  }

  /** The first `k` fields are laid out. */
  ghost predicate Laid(fields: seq<Field>, k: nat, idl: Idl, rank: string -> nat, bound: nat, sizes: seq<nat>, at: nat,
                       offsets: map<string, nat>)
    requires Acyclic(idl, rank) && FieldsBelow(fields, rank, bound)
  {
    && k <= |fields| && FieldSizes(fields[..k], idl, rank, bound) == Success(sizes) && |sizes| == k
    && at == Start(sizes, k) && offsets == Offsets(fields[..k], sizes)
  }

  lemma StepLays(fields: seq<Field>, k: nat, idl: Idl, rank: string -> nat, bound: nat, sizes: seq<nat>, at: nat,
                 offsets: map<string, nat>, size: nat)
    requires Acyclic(idl, rank) && FieldsBelow(fields, rank, bound) && k < |fields|
    requires Laid(fields, k, idl, rank, bound, sizes, at, offsets)
      && SizeOf(fields[k].kind, idl, rank, bound) == Success(size)
    ensures Laid(fields, k + 1, idl, rank, bound, sizes + [size], at + size, offsets[fields[k].name := at])
  {
    var longer := sizes + [size];
    assert fields[..k + 1][..k] == fields[..k] && longer[..k] == sizes;
    StartNext(longer, k);
    StartOfPrefix(longer, k, k);
    hide SizeOf, Start, Acyclic;
  }

  lemma StepFails(fields: seq<Field>, k: nat, idl: Idl, rank: string -> nat, bound: nat, sizes: seq<nat>, why: Error)
    requires Acyclic(idl, rank) && FieldsBelow(fields, rank, bound) && k < |fields|
    requires FieldSizes(fields[..k], idl, rank, bound) == Success(sizes)
      && SizeOf(fields[k].kind, idl, rank, bound) == Failure(why)
    ensures FieldSizes(fields, idl, rank, bound) == Failure(why)
  {
    assert fields[..k + 1][..k] == fields[..k];
    assert FieldSizes(fields[..k + 1], idl, rank, bound) == Failure(why) by { hide SizeOf; }
    hide SizeOf;
    PrefixFails(fields, k + 1, idl, rank, bound);
  }

  lemma PrefixFails(fields: seq<Field>, n: nat, idl: Idl, rank: string -> nat, bound: nat)
    requires Acyclic(idl, rank) && FieldsBelow(fields, rank, bound) && n <= |fields|
    requires FieldSizes(fields[..n], idl, rank, bound).Failure?
    ensures FieldSizes(fields, idl, rank, bound) == FieldSizes(fields[..n], idl, rank, bound)
  {
    if n == |fields| {
      assert fields[..n] == fields;
    } else {
      assert fields[..|fields| - 1][..n] == fields[..n];
      PrefixFails(fields[..|fields| - 1], n, idl, rank, bound);
    }
  }

  // ---- the fields tile the account ----

  predicate Named(fields: seq<Field>) {
    forall i, j :: 0 <= i < j < |fields| ==> fields[i].name != fields[j].name
  }

  /** With distinct field names, each name is mapped to where its field starts, and nothing else is. */
  lemma {:induction false} OffsetsAreStarts(fields: seq<Field>, sizes: seq<nat>)
    requires |fields| == |sizes| && Named(fields)
    ensures forall k :: 0 <= k < |fields| ==>
      fields[k].name in Offsets(fields, sizes) && Offsets(fields, sizes)[fields[k].name] == Start(sizes, k)
    ensures forall name :: name in Offsets(fields, sizes) ==> exists k :: 0 <= k < |fields| && fields[k].name == name
  {
    if fields != [] {
      var n := |fields| - 1;
      OffsetsAreStarts(fields[..n], sizes[..n]);
      forall k | 0 <= k < n ensures Start(sizes[..n], k) == Start(sizes, k) {
        StartOfPrefix(sizes, n, k);
      }
      assert forall k :: 0 <= k < n ==> fields[..n][k] == fields[k];
    }
  }

  lemma {:induction false} StartsIncrease(sizes: seq<nat>, i: nat, j: nat)
    requires i <= j <= |sizes|
    ensures Start(sizes, i) <= Start(sizes, j)
    decreases j
  {
    if i < j {
      StartNext(sizes, j - 1);
      StartsIncrease(sizes, i, j - 1);
    }
  }

  /** Byte `b` belongs to field `k`. */
  predicate InField(sizes: seq<nat>, k: nat, b: nat)
    requires k < |sizes|
  {
    Start(sizes, k) <= b < Start(sizes, k) + sizes[k]
  }

  lemma {:induction false} SomeField(sizes: seq<nat>, n: nat, b: nat) returns (k: nat)
    requires n <= |sizes| && DISCRIMINATOR_LENGTH <= b < Start(sizes, n)
    ensures k < n && InField(sizes, k, b)
    decreases n
  {
    assert sizes[..0] == [];
    assert n > 0;
    StartNext(sizes, n - 1);
    if b < Start(sizes, n - 1) {
      k := SomeField(sizes, n - 1, b);
    } else {
      k := n - 1;
    }
  }

  lemma FieldsApart(sizes: seq<nat>, i: nat, j: nat)
    requires i < j < |sizes|
    ensures Start(sizes, i) + sizes[i] <= Start(sizes, j)
  {
    StartNext(sizes, i);
    StartsIncrease(sizes, i + 1, j);
  }

  /** Every byte behind the discriminator, up to the account's size, belongs to exactly one field: the
      fields leave no gap and do not overlap. */
  lemma FieldsTile(sizes: seq<nat>, b: nat)
    requires DISCRIMINATOR_LENGTH <= b < Start(sizes, |sizes|)
    ensures exists k :: 0 <= k < |sizes| && InField(sizes, k, b)
    ensures forall i, j :: 0 <= i < |sizes| && 0 <= j < |sizes| && InField(sizes, i, b) && InField(sizes, j, b) ==>
      i == j
  {
    var k := SomeField(sizes, |sizes|, b);
    forall i, j | 0 <= i < j < |sizes| ensures !(InField(sizes, i, b) && InField(sizes, j, b)) {
      FieldsApart(sizes, i, j);
    }
  }

  /** No field reaches past the end. */
  lemma FieldsInside(sizes: seq<nat>, k: nat)
    requires k < |sizes|
    ensures DISCRIMINATOR_LENGTH <= Start(sizes, k) && Start(sizes, k) + sizes[k] <= Start(sizes, |sizes|)
  {
    StartNext(sizes, k);
    StartsIncrease(sizes, k + 1, |sizes|);
  }

  /** A list of starts that is right step by step is right. */
  lemma {:induction false} StartsAre(sizes: seq<nat>, starts: seq<nat>, k: nat)
    requires |starts| == |sizes| + 1 && starts[0] == DISCRIMINATOR_LENGTH && k <= |sizes|
    requires forall i :: 0 <= i < |sizes| ==> starts[i + 1] == starts[i] + sizes[i]
    ensures Start(sizes, k) == starts[k]
    decreases k
  {
    if k > 0 {
      StartsAre(sizes, starts, k - 1);
      StartNext(sizes, k - 1);
    } else {
      assert sizes[..0] == [];
    }
  }

  /** Sizes that are right field by field are the sizes. */
  lemma {:induction false} FieldSizesAre(fields: seq<Field>, sizes: seq<nat>, idl: Idl, rank: string -> nat, bound: nat)
    requires Acyclic(idl, rank) && FieldsBelow(fields, rank, bound) && |fields| == |sizes|
    requires forall k :: 0 <= k < |fields| ==> SizeOf(fields[k].kind, idl, rank, bound) == Success(sizes[k])
    ensures FieldSizes(fields, idl, rank, bound) == Success(sizes)
  {
    hide SizeOf;
    if fields != [] {
      var n := |fields| - 1;
      FieldSizesAre(fields[..n], sizes[..n], idl, rank, bound);
      assert sizes == sizes[..n] + [sizes[n]];
    }
  }
}
