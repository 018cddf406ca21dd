/** What a size computed from the IDL means: the most bytes that a value of the type takes when it is written out
    (a Borsh encoding), and there is one exactly when no part of the type is of variable length or unknown. */
module LayoutSizes {
  import opened Basics
  import opened Layout

  /** The bytes each number, flag or key takes; no other name is a scalar. */
  const SCALARS: seq<(string, nat)> := [
    ("bool", 1), ("u8", 1), ("i8", 1), ("u16", 2), ("i16", 2), ("u32", 4), ("i32", 4), ("f32", 4), ("u64", 8),
    ("i64", 8),
    ("f64", 8), ("u128", 16), ("i128", 16), ("pubkey", 32), ("publicKey", 32)]

  lemma ScalarsAre(name: string, n: nat)
    ensures ScalarSize(name) == Some(n) <==> (name, n) in SCALARS
  {
  }

  /** Some value of type `t` is written in `n` bytes: an array's elements and a struct's fields one after the other,
      an optional value behind a byte that says whether it is there, a variant behind a byte that says which. */
  ghost predicate Takes(t: IdlType, n: nat, idl: Idl, rank: string -> nat, bound: nat)
    requires Acyclic(idl, rank) && Below(t, rank, bound)
    decreases bound, t
  {
    match t
    case Scalar(name) => (name, n) in SCALARS
    case Array(e, count) =>
      exists lengths: seq<nat> :: |lengths| == count && Sum(lengths) == n && forall k :: 0 <= k < count ==>
        Takes(e, lengths[k], idl, rank, bound)
    case Optional(i) => n == 1 || (n > 1 && Takes(i, n - 1, idl, rank, bound))
    case Vec(_) => false
    case Defined(name) =>
      match Find(idl, name)
      case None => false
      case Some(Struct(fields)) => FieldsTake(fields, n, idl, rank, rank(name))
      case Some(Enum(variants)) =>
        n >= 1 && exists v :: 0 <= v < |variants| && FieldsTake(variants[v].fields, n - 1, idl, rank, rank(name))
  }

  /** The lengths of a struct's fields, one by one, in a value that takes `n` bytes. */
  ghost predicate Lengths(fields: seq<Field>, lengths: seq<nat>, idl: Idl, rank: string -> nat, bound: nat)
    requires Acyclic(idl, rank) && FieldsBelow(fields, rank, bound)
    decreases bound, fields, 0
  {
    |lengths| == |fields| && forall k :: 0 <= k < |fields| ==> Takes(fields[k].kind, lengths[k], idl, rank, bound)
  }

  ghost predicate FieldsTake(fields: seq<Field>, n: nat, idl: Idl, rank: string -> nat, bound: nat)
    requires Acyclic(idl, rank) && FieldsBelow(fields, rank, bound)
    decreases bound, fields, 1
  {
    exists lengths: seq<nat> :: Sum(lengths) == n && Lengths(fields, lengths, idl, rank, bound)
  }

  /** `s` bytes are enough for every value of type `t`, and one takes them all. */
  ghost predicate Longest(t: IdlType, s: nat, idl: Idl, rank: string -> nat, bound: nat)
    requires Acyclic(idl, rank) && Below(t, rank, bound)
  {
    Takes(t, s, idl, rank, bound) && forall n: nat :: Takes(t, n, idl, rank, bound) ==> n <= s
  }

  ghost predicate FieldsLongest(fields: seq<Field>, s: nat, idl: Idl, rank: string -> nat, bound: nat)
    requires Acyclic(idl, rank) && FieldsBelow(fields, rank, bound)
  {
    FieldsTake(fields, s, idl, rank, bound) && forall n: nat :: FieldsTake(fields, n, idl, rank, bound) ==> n <= s
  }

  /** Every enum has a variant. */
  predicate NoEmptyEnum(idl: Idl) {
    forall k :: 0 <= k < |idl| && idl[k].body.Enum? ==> idl[k].body.variants != []
  }

  // ---- sums of lengths ----

  lemma {:induction false} SumFront(x: nat, rest: seq<nat>)
    ensures Sum([x] + rest) == x + Sum(rest)
  {
    if rest == [] {
      assert [x] + rest == [x];
      assert [x][..0] == [];
    } else {
      var n := |rest| - 1;
      SumFront(x, rest[..n]);
      assert ([x] + rest)[..n + 1] == [x] + rest[..n];
    }
  }

  lemma {:induction false} SumAtMost(lengths: seq<nat>, s: nat)
    requires forall k :: 0 <= k < |lengths| ==> lengths[k] <= s
    ensures Sum(lengths) <= s * |lengths|
  {
    if lengths != [] {
      SumAtMost(lengths[..|lengths| - 1], s);
    }
  }

  lemma {:induction false} SumOfEqual(count: nat, s: nat)
    ensures Sum(seq(count, _ => s)) == s * count
  {
    if count > 0 {
      SumOfEqual(count - 1, s);
      assert seq(count, _ => s)[..count - 1] == seq(count - 1, _ => s);
    }
  }

  // ---- sizes are longest ----

  lemma ArrayTakes(e: IdlType, count: nat, n: nat, idl: Idl, rank: string -> nat, bound: nat)
    requires Acyclic(idl, rank) && Below(e, rank, bound)
    ensures Takes(Array(e, count), n, idl, rank, bound) <==>
            exists lengths: seq<nat> :: |lengths| == count && Sum(lengths) == n && forall k :: 0 <= k < count ==>
              Takes(e, lengths[k], idl, rank, bound)
  {
  }

  lemma ArrayLongest(e: IdlType, count: nat, s: nat, idl: Idl, rank: string -> nat, bound: nat)
    requires Acyclic(idl, rank) && Below(e, rank, bound) && Longest(e, s, idl, rank, bound)
    ensures Longest(Array(e, count), s * count, idl, rank, bound)
  {
    hide Takes, Acyclic, Sum;
    SumOfEqual(count, s);
    ArrayTakes(e, count, s * count, idl, rank, bound);
    var most := seq(count, _ => s);
    assert forall k :: 0 <= k < count ==> most[k] == s;
    forall n: nat | Takes(Array(e, count), n, idl, rank, bound) ensures n <= s * count {
      ArrayTakes(e, count, n, idl, rank, bound);
      var lengths: seq<nat> :| |lengths| == count && Sum(lengths) == n && forall k :: 0 <= k < count ==>
        Takes(e, lengths[k], idl, rank, bound);
      SumAtMost(lengths, s);
    }
  }

  lemma LengthsFront(fields: seq<Field>, first: nat, rest: seq<nat>, idl: Idl, rank: string -> nat, bound: nat)
    requires Acyclic(idl, rank) && FieldsBelow(fields, rank, bound) && fields != []
    ensures Lengths(fields, [first] + rest, idl, rank, bound) <==>
            Takes(fields[0].kind, first, idl, rank, bound) && Lengths(fields[1..], rest, idl, rank, bound)
  {
    hide Takes, Acyclic;
    var others, all := fields[1..], [first] + rest;
    assert forall k :: 0 <= k < |others| ==> others[k] == fields[k + 1];
    assert forall k :: 0 <= k < |rest| ==> rest[k] == all[k + 1];
    if Lengths(fields, all, idl, rank, bound) {
      forall k | 0 <= k < |others| ensures Takes(others[k].kind, rest[k], idl, rank, bound) {
        assert Takes(fields[k + 1].kind, all[k + 1], idl, rank, bound);
      }
    }
    if Takes(fields[0].kind, first, idl, rank, bound) && Lengths(others, rest, idl, rank, bound) {
      forall k | 0 <= k < |fields| ensures Takes(fields[k].kind, all[k], idl, rank, bound) {
        assert k > 0 ==> Takes(others[k - 1].kind, rest[k - 1], idl, rank, bound);
      }
    }
  }

  lemma FieldsTakeFront(fields: seq<Field>, first: nat, rest: nat, idl: Idl, rank: string -> nat, bound: nat)
    requires Acyclic(idl, rank) && FieldsBelow(fields, rank, bound) && fields != []
    requires Takes(fields[0].kind, first, idl, rank, bound) && FieldsTake(fields[1..], rest, idl, rank, bound)
    ensures FieldsTake(fields, first + rest, idl, rank, bound)
  {
    hide Takes, Sum, Acyclic;
    var lengths :| Sum(lengths) == rest && Lengths(fields[1..], lengths, idl, rank, bound);
    LengthsFront(fields, first, lengths, idl, rank, bound);
    SumFront(first, lengths);
  }

  lemma FieldsTakeSplit(fields: seq<Field>, n: nat, idl: Idl, rank: string -> nat, bound: nat)
      returns (first: nat, rest: nat)
    requires Acyclic(idl, rank) && FieldsBelow(fields, rank, bound) && fields != []
    requires FieldsTake(fields, n, idl, rank, bound)
    ensures first + rest == n && Takes(fields[0].kind, first, idl, rank, bound)
      && FieldsTake(fields[1..], rest, idl, rank, bound)
  {
    hide Takes, Sum, Acyclic;
    var lengths :| Sum(lengths) == n && Lengths(fields, lengths, idl, rank, bound);
    assert lengths == [lengths[0]] + lengths[1..];
    LengthsFront(fields, lengths[0], lengths[1..], idl, rank, bound);
    SumFront(lengths[0], lengths[1..]);
    first, rest := lengths[0], Sum(lengths[1..]);
  }

  lemma FieldsLongestFront(fields: seq<Field>, size: nat, rest: nat, idl: Idl, rank: string -> nat, bound: nat)
    requires Acyclic(idl, rank) && FieldsBelow(fields, rank, bound) && fields != []
    requires Longest(fields[0].kind, size, idl, rank, bound) && FieldsLongest(fields[1..], rest, idl, rank, bound)
    ensures FieldsLongest(fields, size + rest, idl, rank, bound)
  {
    hide Takes, FieldsTake, Acyclic, FieldsBelow;
    FieldsTakeFront(fields, size, rest, idl, rank, bound);
    forall n: nat | FieldsTake(fields, n, idl, rank, bound) ensures n <= size + rest {
      var first, others := FieldsTakeSplit(fields, n, idl, rank, bound);
    }
  }

  lemma NoFieldsLongest(idl: Idl, rank: string -> nat, bound: nat)
    requires Acyclic(idl, rank)
    ensures FieldsBelow([], rank, bound) && FieldsLongest([], 0, idl, rank, bound)
  {
    var none: seq<nat> := [];
    assert |none| == 0 && Sum(none) == 0;
  }

  /** The size of the largest variant is that of one of them, and no other's is larger. */
  lemma {:induction false} LargestIs(variants: seq<Variant>, idl: Idl, rank: string -> nat, bound: nat)
    requires Acyclic(idl, rank) && BodyBelow(Enum(variants), rank, bound) && variants != []
    requires LargestVariant(variants, idl, rank, bound).Success?
    ensures var s := LargestVariant(variants, idl, rank, bound).value;
      && (forall v :: 0 <= v < |variants| ==>
           SizeOfFields(variants[v].fields, idl, rank, bound).Success?
           && SizeOfFields(variants[v].fields, idl, rank, bound).value <= s)
      && exists v :: 0 <= v < |variants| && SizeOfFields(variants[v].fields, idl, rank, bound) == Success(s)
  {
    hide SizeOfFields;
    var s := LargestVariant(variants, idl, rank, bound).value;
    assert SizeOfFields(variants[0].fields, idl, rank, bound).Success?;
    if |variants| > 1 {
      var rest := variants[1..];
      assert forall v :: 0 <= v < |rest| ==> rest[v] == variants[v + 1];
      LargestIs(rest, idl, rank, bound);
      if SizeOfFields(variants[0].fields, idl, rank, bound) != Success(s) {
        var v :| 0 <= v < |rest| && SizeOfFields(rest[v].fields, idl, rank, bound) == Success(s);
        assert SizeOfFields(variants[v + 1].fields, idl, rank, bound) == Success(s);
      }
    } else {
      assert variants[1..] == [];
    }
  }

  /** A size derived for a type is what its longest value takes. */
  lemma {:induction false} SizeIsLongest(t: IdlType, idl: Idl, rank: string -> nat, bound: nat)
    requires Acyclic(idl, rank) && Below(t, rank, bound) && NoEmptyEnum(idl)
    requires SizeOf(t, idl, rank, bound).Success?
    ensures Longest(t, SizeOf(t, idl, rank, bound).value, idl, rank, bound)
    decreases bound, t
  {
    match t
    case Scalar(name) => ScalarIsLongest(name, idl, rank, bound);
    case Array(e, count) =>
      SizeIsLongest(e, idl, rank, bound);
      ArrayLongest(e, count, SizeOf(e, idl, rank, bound).value, idl, rank, bound);
    case Optional(i) =>
      SizeIsLongest(i, idl, rank, bound);
      OptionalLongest(i, SizeOf(i, idl, rank, bound).value, idl, rank, bound);
    case Defined(name) =>
      match Find(idl, name) {
        case Some(Struct(fields)) =>
          FieldsAreLongest(fields, idl, rank, rank(name));
          StructLongest(name, fields, SizeOfFields(fields, idl, rank, rank(name)).value, idl, rank, bound);
        case Some(Enum(variants)) =>
          forall v | 0 <= v < |variants| && SizeOfFields(variants[v].fields, idl, rank, rank(name)).Success?
            ensures FieldsLongest(variants[v].fields,
                                  SizeOfFields(variants[v].fields, idl, rank, rank(name)).value, idl, rank, rank(name))
          {
            FieldsAreLongest(variants[v].fields, idl, rank, rank(name));
          }
          LargestIs(variants, idl, rank, rank(name));
          EnumLongest(name, variants, LargestVariant(variants, idl, rank, rank(name)).value, idl, rank, bound);
      }
    case Vec(_) =>
  }

  lemma {:induction false} FieldsAreLongest(fields: seq<Field>, idl: Idl, rank: string -> nat, bound: nat)
    requires Acyclic(idl, rank) && FieldsBelow(fields, rank, bound) && NoEmptyEnum(idl)
    requires SizeOfFields(fields, idl, rank, bound).Success?
    ensures FieldsLongest(fields, SizeOfFields(fields, idl, rank, bound).value, idl, rank, bound)
    decreases bound, fields
  {
    if fields == [] {
      NoFieldsLongest(idl, rank, bound);
    } else {
      SizeIsLongest(fields[0].kind, idl, rank, bound);
      FieldsAreLongest(fields[1..], idl, rank, bound);
      FieldsLongestFront(fields, SizeOf(fields[0].kind, idl, rank, bound).value,
                         SizeOfFields(fields[1..], idl, rank, bound).value, idl, rank, bound);
    }
  }

  lemma ScalarIsLongest(name: string, idl: Idl, rank: string -> nat, bound: nat)
    requires Acyclic(idl, rank) && ScalarSize(name).Some?
    ensures Longest(Scalar(name), ScalarSize(name).value, idl, rank, bound)
  {
    ScalarsAre(name, ScalarSize(name).value);
    forall n: nat | (name, n) in SCALARS ensures n <= ScalarSize(name).value {
      ScalarsAre(name, n);
    }
    hide ScalarSize;
  }

  lemma OptionalLongest(i: IdlType, s: nat, idl: Idl, rank: string -> nat, bound: nat)
    requires Acyclic(idl, rank) && Below(i, rank, bound) && Longest(i, s, idl, rank, bound)
    ensures Longest(Optional(i), 1 + s, idl, rank, bound)
  {
  }

  lemma DefinedTakes(name: string, n: nat, idl: Idl, rank: string -> nat, bound: nat)
    requires Acyclic(idl, rank) && rank(name) < bound && Find(idl, name).Some?
      && BodyBelow(Find(idl, name).value, rank, rank(name))
    ensures Takes(Defined(name), n, idl, rank, bound) <==>
            match Find(idl, name).value
            case Struct(fields) => FieldsTake(fields, n, idl, rank, rank(name))
            case Enum(variants) =>
              n >= 1 && exists v :: 0 <= v < |variants| && FieldsTake(variants[v].fields, n - 1, idl, rank, rank(name))
  {
    hide FieldsTake;
  }

  lemma StructLongest(name: string, fields: seq<Field>, s: nat, idl: Idl, rank: string -> nat, bound: nat)
    requires Acyclic(idl, rank) && rank(name) < bound && Find(idl, name) == Some(Struct(fields))
    requires FieldsBelow(fields, rank, rank(name)) && FieldsLongest(fields, s, idl, rank, rank(name))
    ensures Longest(Defined(name), s, idl, rank, bound)
  {
    forall n: nat ensures Takes(Defined(name), n, idl, rank, bound) <==> FieldsTake(fields, n, idl, rank, rank(name)) {
      DefinedTakes(name, n, idl, rank, bound);
    }
    hide Takes, FieldsTake, Acyclic;
  }

  lemma EnumLongest(name: string, variants: seq<Variant>, s: nat, idl: Idl, rank: string -> nat, bound: nat)
    requires Acyclic(idl, rank) && rank(name) < bound && Find(idl, name) == Some(Enum(variants))
    requires BodyBelow(Enum(variants), rank, rank(name))
    requires exists v :: 0 <= v < |variants| && FieldsTake(variants[v].fields, s, idl, rank, rank(name))
    requires forall v, n: nat ::
      0 <= v < |variants| && FieldsTake(variants[v].fields, n, idl, rank, rank(name)) ==> n <= s
    ensures Longest(Defined(name), 1 + s, idl, rank, bound)
  {
    DefinedTakes(name, 1 + s, idl, rank, bound);
    forall n: nat | Takes(Defined(name), n, idl, rank, bound) ensures n <= 1 + s {
      DefinedTakes(name, n, idl, rank, bound);
    }
    hide Takes, FieldsTake, Acyclic;
  }

  // ---- accounts ----

  lemma {:induction false} SizesOfFields(fields: seq<Field>, idl: Idl, rank: string -> nat, bound: nat, k: nat)
    requires Acyclic(idl, rank) && FieldsBelow(fields, rank, bound) && k < |fields|
    requires FieldSizes(fields, idl, rank, bound).Success?
    ensures SizeOf(fields[k].kind, idl, rank, bound) == Success(FieldSizes(fields, idl, rank, bound).value[k])
  {
    hide SizeOf, Acyclic;
    var n := |fields| - 1;
    if k < n {
      SizesOfFields(fields[..n], idl, rank, bound, k);
    }
  }

  lemma {:induction false} SumMonotone(a: seq<nat>, b: seq<nat>)
    requires |a| == |b| && forall k :: 0 <= k < |a| ==> a[k] <= b[k]
    ensures Sum(a) <= Sum(b)
  {
    if a != [] {
      SumMonotone(a[..|a| - 1], b[..|b| - 1]);
    }
  }

  lemma AccountSize(fields: seq<Field>, sizes: seq<nat>)
    requires |fields| == |sizes|
    ensures LayoutOf(fields, sizes).size == 8 + Sum(sizes)
  {
    SizeIsEnd(fields, sizes);
    assert sizes[..|sizes|] == sizes;
  }

  lemma KindsBelow(fields: seq<Field>, rank: string -> nat, bound: nat)
    requires FieldsBelow(fields, rank, bound)
    ensures forall k :: 0 <= k < |fields| ==> Below(fields[k].kind, rank, bound)
  {
  }

  lemma OneByOneLongest(fields: seq<Field>, sizes: seq<nat>, idl: Idl, rank: string -> nat, bound: nat)
    requires Acyclic(idl, rank) && FieldsBelow(fields, rank, bound) && |fields| == |sizes|
    requires forall k :: 0 <= k < |fields| ==> Longest(fields[k].kind, sizes[k], idl, rank, bound)
    ensures FieldsLongest(fields, Sum(sizes), idl, rank, bound)
  {
    hide Takes, Acyclic, Sum;
    assert Lengths(fields, sizes, idl, rank, bound);
    forall n: nat | FieldsTake(fields, n, idl, rank, bound) ensures n <= Sum(sizes) {
      var lengths: seq<nat> :| Sum(lengths) == n && Lengths(fields, lengths, idl, rank, bound);
      assert forall k :: 0 <= k < |fields| ==> Takes(fields[k].kind, lengths[k], idl, rank, bound);
      SumMonotone(lengths, sizes);
    }
  }

  lemma EachLongest(fields: seq<Field>, sizes: seq<nat>, idl: Idl, rank: string -> nat, bound: nat)
    requires Acyclic(idl, rank) && FieldsBelow(fields, rank, bound) && NoEmptyEnum(idl) && |fields| == |sizes|
    requires FieldSizes(fields, idl, rank, bound) == Success(sizes)
    ensures FieldsLongest(fields, Sum(sizes), idl, rank, bound)
  {
    KindsBelow(fields, rank, bound);
    hide *;
    forall k | 0 <= k < |fields| ensures Longest(fields[k].kind, sizes[k], idl, rank, bound) {
      SizesOfFields(fields, idl, rank, bound, k);
      SizeIsLongest(fields[k].kind, idl, rank, bound);
    }
    OneByOneLongest(fields, sizes, idl, rank, bound);
  }

  /** The size of an account's layout is its discriminator and what the longest value of its struct takes. */
  lemma AccountIsLongest(fields: seq<Field>, sizes: seq<nat>, idl: Idl, rank: string -> nat, bound: nat)
    requires Acyclic(idl, rank) && FieldsBelow(fields, rank, bound) && NoEmptyEnum(idl) && |fields| == |sizes|
    requires FieldSizes(fields, idl, rank, bound) == Success(sizes)
    ensures var size := LayoutOf(fields, sizes).size;
      size >= 8 && FieldsLongest(fields, size - 8, idl, rank, bound)
  {
    EachLongest(fields, sizes, idl, rank, bound);
    AccountSize(fields, sizes);
    hide *;
  }

  // ---- when there is a size ----

  /** Nothing in the type is of variable length, of an unknown scalar type, or not in the IDL. */
  ghost predicate Derivable(t: IdlType, idl: Idl, rank: string -> nat, bound: nat)
    requires Acyclic(idl, rank) && Below(t, rank, bound)
    decreases bound, t
  {
    match t
    case Scalar(name) => exists n :: (name, n) in SCALARS
    case Array(e, _) => Derivable(e, idl, rank, bound)
    case Optional(i) => Derivable(i, idl, rank, bound)
    case Vec(_) => false
    case Defined(name) =>
      match Find(idl, name)
      case None => false
      case Some(Struct(fields)) => forall k :: 0 <= k < |fields| ==> Derivable(fields[k].kind, idl, rank, rank(name))
      case Some(Enum(variants)) =>
        forall v :: 0 <= v < |variants| ==> forall k :: 0 <= k < |variants[v].fields| ==>
          Derivable(variants[v].fields[k].kind, idl, rank, rank(name))
  }

  lemma {:induction false} DerivableExactly(t: IdlType, idl: Idl, rank: string -> nat, bound: nat)
    requires Acyclic(idl, rank) && Below(t, rank, bound)
    ensures SizeOf(t, idl, rank, bound).Success? <==> Derivable(t, idl, rank, bound)
    decreases bound, t
  {
    match t
    case Scalar(name) =>
      forall n: nat ensures ScalarSize(name) == Some(n) <==> (name, n) in SCALARS {
        ScalarsAre(name, n);
      }
      hide ScalarSize;
    case Array(e, count) => DerivableExactly(e, idl, rank, bound);
    case Optional(i) => DerivableExactly(i, idl, rank, bound);
    case Vec(_) =>
    case Defined(name) =>
      match Find(idl, name) {
        case None =>
        case Some(Struct(fields)) => FieldsDerivable(fields, idl, rank, rank(name));
        case Some(Enum(variants)) => VariantsDerivable(variants, idl, rank, rank(name));
      }
  }

  lemma {:induction false} FieldsDerivable(fields: seq<Field>, idl: Idl, rank: string -> nat, bound: nat)
    requires Acyclic(idl, rank) && FieldsBelow(fields, rank, bound)
    ensures SizeOfFields(fields, idl, rank, bound).Success? <==>
            forall k :: 0 <= k < |fields| ==> Derivable(fields[k].kind, idl, rank, bound)
    decreases bound, fields
  {
    if fields != [] {
      var rest := fields[1..];
      assert forall k :: 0 <= k < |rest| ==> rest[k] == fields[k + 1];
      DerivableExactly(fields[0].kind, idl, rank, bound);
      FieldsDerivable(rest, idl, rank, bound);
      hide Derivable, SizeOf, Acyclic;
      forall k | 0 < k < |fields| ensures fields[k] == rest[k - 1] {
      }
    }
  }

  lemma {:induction false} VariantsDerivable(variants: seq<Variant>, idl: Idl, rank: string -> nat, bound: nat)
    requires Acyclic(idl, rank) && BodyBelow(Enum(variants), rank, bound)
    ensures LargestVariant(variants, idl, rank, bound).Success? <==>
            forall v :: 0 <= v < |variants| ==> forall k :: 0 <= k < |variants[v].fields| ==>
              Derivable(variants[v].fields[k].kind, idl, rank, bound)
    decreases bound, variants
  {
    if variants != [] {
      var rest := variants[1..];
      assert forall v :: 0 <= v < |rest| ==> rest[v] == variants[v + 1];
      FieldsDerivable(variants[0].fields, idl, rank, bound);
      VariantsDerivable(rest, idl, rank, bound);
      hide Derivable, SizeOfFields, Acyclic;
      forall v | 0 < v < |variants| ensures variants[v] == rest[v - 1] {
      }
    }
  }
}
