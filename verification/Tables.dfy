/** Tables that remember insertion order, as a JavaScript Map does: iteration, and "the oldest key", follow
    the order in which keys were first set. */
module Tables {

  /** The elements of `keys` that are in `s`, in order. */
  function Restrict<K(==)>(keys: seq<K>, s: set<K>): seq<K> {
    if keys == [] then []
    else Restrict(keys[..|keys| - 1], s) + if keys[|keys| - 1] in s then [keys[|keys| - 1]] else []
  }

  predicate Distinct<K(==)>(keys: seq<K>) {
    forall i, j :: 0 <= i < j < |keys| ==> keys[i] != keys[j]
  }

  datatype Table<K(==,!new), V> = Table(keys: seq<K>, at: map<K, V>) {
    /** The keys are listed once each. */
    ghost predicate Good() {
      Distinct(keys) && forall k :: k in keys <==> k in at
    }

    function Put(k: K, v: V): Table<K, V> {
      Table(if k in at then keys else keys + [k], at[k := v])
    }

    function Only(s: set<K>): Table<K, V> {
      Table(Restrict(keys, s), map k | k in at && k in s :: at[k])
    }

    function Without(k: K): Table<K, V> {
      Only(at.Keys - {k})
    }
  }

  lemma {:induction false} RestrictIn<K(!new)>(keys: seq<K>, s: set<K>)
    ensures |Restrict(keys, s)| <= |keys|
    ensures forall x :: x in Restrict(keys, s) <==> x in keys && x in s
    ensures Distinct(keys) ==> Distinct(Restrict(keys, s))
  {
    if keys != [] {
      var n := |keys| - 1;
      RestrictIn(keys[..n], s);
      assert keys == keys[..n] + [keys[n]];
      if Distinct(keys) {
        assert keys[n] !in keys[..n];
      }
    }
  }

  lemma {:induction false} RestrictTwice<K(!new)>(keys: seq<K>, a: set<K>, b: set<K>)
    ensures Restrict(Restrict(keys, a), b) == Restrict(keys, a * b)
  {
    if keys != [] {
      var n := |keys| - 1;
      var rest := Restrict(keys[..n], a);
      RestrictTwice(keys[..n], a, b);
      if keys[n] in a {
        assert Restrict(keys, a) == rest + [keys[n]];
        assert (rest + [keys[n]])[..|rest|] == rest;
      } else {
        assert Restrict(keys, a) == rest;
      }
    }
  }

  lemma {:induction false} RestrictSame<K(!new)>(keys: seq<K>, a: set<K>, b: set<K>)
    requires forall x :: x in keys ==> (x in a <==> x in b)
    ensures Restrict(keys, a) == Restrict(keys, b)
  {
    if keys != [] {
      RestrictSame(keys[..|keys| - 1], a, b);
    }
  }

  lemma {:induction false} RestrictAll<K(!new)>(keys: seq<K>, s: set<K>)
    requires forall x :: x in keys ==> x in s
    ensures Restrict(keys, s) == keys
  {
    if keys != [] {
      RestrictAll(keys[..|keys| - 1], s);
    }
  }

  lemma {:induction false} RestrictConcat<K(!new)>(a: seq<K>, b: seq<K>, s: set<K>)
    ensures Restrict(a + b, s) == Restrict(a, s) + Restrict(b, s)
  {
    if b == [] {
      assert a + b == a;
    } else {
      var n := |b| - 1;
      assert (a + b)[..|a + b| - 1] == a + b[..n];
      RestrictConcat(a, b[..n], s);
    }
  }

  lemma OnlyGood<K(!new), V>(t: Table<K, V>, s: set<K>)
    requires t.Good()
    ensures t.Only(s).Good()
  {
    RestrictIn(t.keys, s);
  }

  lemma OnlyTwice<K(!new), V>(t: Table<K, V>, a: set<K>, b: set<K>)
    ensures t.Only(a).Only(b) == t.Only(a * b)
  {
    RestrictTwice(t.keys, a, b);
    assert t.Only(a).Only(b).at == t.Only(a * b).at;
  }

  lemma OnlySame<K(!new), V>(t: Table<K, V>, a: set<K>, b: set<K>)
    requires t.Good() && forall k :: k in t.at ==> (k in a <==> k in b)
    ensures t.Only(a) == t.Only(b)
  {
    RestrictSame(t.keys, a, b);
    assert t.Only(a).at == t.Only(b).at;
  }

  lemma OnlyAll<K(!new), V>(t: Table<K, V>, s: set<K>)
    requires t.Good() && forall k :: k in t.at ==> k in s
    ensures t.Only(s) == t
  {
    RestrictAll(t.keys, s);
    assert t.Only(s).at == t.at;
  }

  lemma PutGood<K(!new), V>(t: Table<K, V>, k: K, v: V)
    requires t.Good()
    ensures t.Put(k, v).Good()
  {
  }

  /** Taking out the oldest key. */
  lemma WithoutFirst<K(!new), V>(t: Table<K, V>)
    requires t.Good() && t.keys != []
    ensures t.Without(t.keys[0]).keys == t.keys[1..]
  {
    var s := t.at.Keys - {t.keys[0]};
    assert t.keys == [t.keys[0]] + t.keys[1..];
    RestrictConcat([t.keys[0]], t.keys[1..], s);
    assert [t.keys[0]][..0] == [];
    RestrictAll(t.keys[1..], s);
  }

  lemma SizeIsKeys<K(!new), V>(t: Table<K, V>)
    requires t.Good()
    ensures |t.at| == |t.keys|
  {
    DistinctSize(t.keys);
    assert t.at.Keys == set k | k in t.keys;
  }

  lemma {:induction false} DistinctSize<K(!new)>(keys: seq<K>)
    requires Distinct(keys)
    ensures |set k | k in keys| == |keys|
  {
    if keys != [] {
      var n := |keys| - 1;
      DistinctSize(keys[..n]);
      assert keys == keys[..n] + [keys[n]];
      assert (set k | k in keys) == (set k | k in keys[..n]) + {keys[n]};
    }
  }
}
