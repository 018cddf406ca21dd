/** Login challenges (backend/src/wallet-auth.ts): a store of pending challenges in issue order, and the
    guarantees it gives over every run. `WalletAuthStore.dfy` holds the two maps the program keeps. */
module WalletAuth {
  import opened Basics
  import opened Tables

  /** A challenge's random name. Each one issued is new. */
  type Nonce = nat

  /** The text a wallet signs. The program's site is fixed, so it is left out. */
  datatype Message = Message(wallet: Address, nonce: Nonce, issuedAt: Millis, expiresAt: Millis)

  datatype Pending = Pending(wallet: Address, message: Message, expiresAt: Millis, attempts: nat)

  datatype Config = Config(ttl: Millis, maxAttempts: nat, maxPending: nat, maxPendingPerWallet: nat)

  type Store = Table<Nonce, Pending>

  const EMPTY: Store := Table([], map[])

  function OfWallet(at: map<Nonce, Pending>, w: Address): set<Nonce> {
    set n | n in at && at[n].wallet == w
  }

  /** A wallet's pending challenges, in issue order. */
  function Mine(s: Store, w: Address): seq<Nonce> {
    Restrict(s.keys, OfWallet(s.at, w))
  }

  function Unexpired(at: map<Nonce, Pending>, now: Millis): set<Nonce> {
    set n | n in at && at[n].expiresAt > now
  }

  function Drop(s: Store, n: Nonce): Store {
    if n in s.at then s.Without(n) else s
  }

  function Sweep(s: Store, now: Millis): Store {
    s.Only(Unexpired(s.at, now))
  }

  ghost function EvictOldest(s: Store, cap: nat): (t: Store)
    requires s.Good()
    ensures t.Good()
    decreases |s.keys|
  {
    if |s.keys| > 0 && |s.keys| >= cap then
      WithoutFirst(s);
      OnlyGood(s, s.at.Keys - {s.keys[0]});
      EvictOldest(Drop(s, s.keys[0]), cap)
    else s
  }

  ghost function EvictNewest(s: Store, w: Address, cap: nat): (t: Store)
    requires s.Good()
    ensures t.Good()
    decreases |Mine(s, w)|
  {
    var mine := Mine(s, w);
    if |mine| > 0 && |mine| >= cap then
      DropNewest(s, w);
      EvictNewest(Drop(s, mine[|mine| - 1]), w, cap)
    else s
  }

  function Entry(c: Config, w: Address, n: Nonce, issued: Millis): Pending {
    Pending(w, Message(w, n, issued, issued + c.ttl), issued + c.ttl, 0)
  }

  /** Room made for one more challenge of wallet `w`. */
  ghost function MakeRoom(s: Store, c: Config, w: Address, now: Millis): (t: Store)
    requires s.Good()
    ensures t.Good()
  {
    OnlyGood(s, Unexpired(s.at, now));
    EvictNewest(EvictOldest(Sweep(s, now), c.maxPending), w, c.maxPendingPerWallet)
  }

  /** `now` and `issued` are two readings of the clock, before and after the evictions. */
  ghost function Challenge(s: Store, c: Config, w: Address, n: Nonce, now: Millis, issued: Millis): (t: Store)
    requires s.Good()
    ensures t.Good()
  {
    PutGood(MakeRoom(s, c, w, now), n, Entry(c, w, n, issued));
    MakeRoom(s, c, w, now).Put(n, Entry(c, w, n, issued))
  }

  datatype Verdict = NoChallenge | Expired | BadSignature | LoggedIn

  /** `signs` says whether the signature given verifies under `w` over the stored message. */
  function Verify(s: Store, c: Config, w: Address, n: Nonce, now: Millis, signs: bool): (Store, Verdict) {
    if n !in s.at || s.at[n].wallet != w then (s, NoChallenge)
    else if s.at[n].expiresAt <= now then (Drop(s, n), Expired)
    else if signs then (Drop(s, n), LoggedIn)
    else
      var p := s.at[n].(attempts := s.at[n].attempts + 1);
      (if p.attempts >= c.maxAttempts then Drop(s, n) else s.(at := s.at[n := p]), BadSignature)
  }

  // ---- a wallet's own list, under each operation ----

  /** Dropping entries drops them from every wallet's list, and changes no list otherwise. */
  lemma MineOnly(s: Store, keep: set<Nonce>, w: Address)
    requires s.Good()
    ensures Mine(s.Only(keep), w) == Restrict(Mine(s, w), keep)
  {
    RestrictTwice(s.keys, keep, OfWallet(s.Only(keep).at, w));
    RestrictTwice(s.keys, OfWallet(s.at, w), keep);
    RestrictSame(s.keys, keep * OfWallet(s.Only(keep).at, w), OfWallet(s.at, w) * keep);
  }

  lemma MineIn(s: Store, w: Address)
    requires s.Good()
    ensures Distinct(Mine(s, w)) && forall n :: n in Mine(s, w) <==> n in s.at && s.at[n].wallet == w
  {
    RestrictIn(s.keys, OfWallet(s.at, w));
  }

  lemma DropLast<K(!new)>(keys: seq<K>, s: set<K>)
    requires keys != [] && Distinct(keys) && forall x :: x in keys ==> (x in s <==> x != keys[|keys| - 1])
    ensures Restrict(keys, s) == keys[..|keys| - 1]
  {
    RestrictAll(keys[..|keys| - 1], s);
  }

  lemma DropNewest(s: Store, w: Address)
    requires s.Good() && Mine(s, w) != []
    ensures var mine := Mine(s, w);
      var n := mine[|mine| - 1];
      && n in s.at && Drop(s, n).Good() && Mine(Drop(s, n), w) == mine[..|mine| - 1]
      && |Mine(Drop(s, n), w)| < |mine|
  {
    var mine := Mine(s, w);
    var n := mine[|mine| - 1];
    MineIn(s, w);
    OnlyGood(s, s.at.Keys - {n});
    MineOnly(s, s.at.Keys - {n}, w);
    DropLast(mine, s.at.Keys - {n});
  }

  // ---- the two eviction loops ----

  function First<T>(s: seq<T>, n: nat): seq<T> { if n < |s| then s[..n] else s }

  function Last<T>(s: seq<T>, n: nat): seq<T> { if n < |s| then s[|s| - n..] else s }

  /** `t` is part of `s`. */
  ghost predicate Part(t: Store, s: Store) {
    exists keep: set<Nonce> :: t == s.Only(keep)
  }

  lemma PartTwice(s: Store, a: set<Nonce>, t: Store)
    requires Part(t, s.Only(a))
    ensures Part(t, s)
  {
    var b: set<Nonce> :| t == s.Only(a).Only(b);
    OnlyTwice(s, a, b);
  }

  lemma PartOfSelf(s: Store)
    requires s.Good()
    ensures Part(s, s)
  {
    OnlyAll(s, s.at.Keys);
  }

  /** What stays when the first loop makes room is the newest: one fewer than the cap. */
  lemma {:induction false} OldestGone(s: Store, cap: nat)
    requires s.Good()
    ensures var t := EvictOldest(s, cap);
      Part(t, s) && t.keys == Last(s.keys, Max(cap, 1) - 1) && (|s.keys| < cap ==> t == s)
    decreases |s.keys|
  {
    if |s.keys| > 0 && |s.keys| >= cap {
      var rest := Drop(s, s.keys[0]);
      DropFirst(s);
      assert EvictOldest(s, cap) == EvictOldest(rest, cap);
      hide *;
      OldestGone(rest, cap);
      PartTwice(s, s.at.Keys - {s.keys[0]}, EvictOldest(rest, cap));
      LastOfShorter(s.keys, cap);
    } else {
      PartOfSelf(s);
    }
  }

  lemma DropFirst(s: Store)
    requires s.Good() && s.keys != []
    ensures var rest := Drop(s, s.keys[0]);
      rest.Good() && rest == s.Only(s.at.Keys - {s.keys[0]}) && rest.keys == s.keys[1..]
  {
    WithoutFirst(s);
    OnlyGood(s, s.at.Keys - {s.keys[0]});
  }

  lemma LastOfShorter<T>(s: seq<T>, cap: nat)
    requires |s| > 0 && |s| >= cap
    ensures Last(s[1..], Max(cap, 1) - 1) == Last(s, Max(cap, 1) - 1)
  {
  }

  lemma OthersLists(s: Store, n: Nonce, v: Address)
    requires s.Good() && n in s.at && s.at[n].wallet != v
    ensures Mine(Drop(s, n), v) == Mine(s, v)
  {
    MineOnly(s, s.at.Keys - {n}, v);
    MineIn(s, v);
    RestrictAll(Mine(s, v), s.at.Keys - {n});
  }

  /** What a wallet keeps when room is made for it is the oldest of its own; other wallets keep theirs. */
  lemma {:induction false} NewestGone(s: Store, w: Address, cap: nat)
    requires s.Good()
    ensures var t := EvictNewest(s, w, cap);
      && Part(t, s) && Mine(t, w) == First(Mine(s, w), Max(cap, 1) - 1)
      && forall v :: v != w ==> Mine(t, v) == Mine(s, v)
    decreases |Mine(s, w)|
  {
    var mine := Mine(s, w);
    if |mine| > 0 && |mine| >= cap {
      var n := mine[|mine| - 1];
      var a := s.at.Keys - {n};
      DropNewest(s, w);
      MineIn(s, w);
      assert EvictNewest(s, w, cap) == EvictNewest(s.Only(a), w, cap);
      hide EvictNewest, Mine, Part, Drop;
      NewestGone(s.Only(a), w, cap);
      PartTwice(s, a, EvictNewest(s.Only(a), w, cap));
      FirstOfShorter(mine, cap);
      forall v | v != w ensures Mine(s.Only(a), v) == Mine(s, v) {
        OthersLists(s, n, v);
        DropIsOnly(s, n);
      }
    } else {
      PartOfSelf(s);
    }
  }

  lemma DropIsOnly(s: Store, n: Nonce)
    requires n in s.at
    ensures Drop(s, n) == s.Only(s.at.Keys - {n})
  {
  }

  lemma FirstOfShorter<T>(s: seq<T>, cap: nat)
    requires |s| > 0 && |s| >= cap
    ensures First(s[..|s| - 1], Max(cap, 1) - 1) == First(s, Max(cap, 1) - 1)
  {
    assert s[..|s| - 1][..Max(cap, 1) - 1] == s[..Max(cap, 1) - 1];
  }

  lemma PartShrinks(t: Store, s: Store, w: Address)
    requires s.Good() && Part(t, s)
    ensures |t.keys| <= |s.keys| && |Mine(t, w)| <= |Mine(s, w)|
    ensures forall n :: n in t.at ==> n in s.at && t.at[n] == s.at[n]
  {
    var keep: set<Nonce> :| t == s.Only(keep);
    MineOnly(s, keep, w);
    RestrictIn(Mine(s, w), keep);
    RestrictIn(s.keys, keep);
  }

  // ---- the size caps ----

  ghost predicate Capped(s: Store, c: Config) {
    && |s.keys| <= Max(c.maxPending, 1)
    && forall w :: |Mine(s, w)| <= Max(c.maxPendingPerWallet, 1)
  }

  /** Room for one more, in the store and for the wallet; nothing in the store that was not there. */
  lemma RoomMade(s: Store, c: Config, w: Address, now: Millis)
    requires s.Good()
    ensures var t := MakeRoom(s, c, w, now);
      && |t.keys| < Max(c.maxPending, 1) && |Mine(t, w)| < Max(c.maxPendingPerWallet, 1)
      && (forall v :: |Mine(t, v)| <= |Mine(s, v)|)
      && (forall n :: n in t.at ==> n in s.at && t.at[n] == s.at[n] && s.at[n].expiresAt > now)
  {
    var a := Sweep(s, now);
    Swept(s, now);
    var b := EvictOldest(a, c.maxPending);
    OldestGone(a, c.maxPending);
    LastFits(a.keys, Max(c.maxPending, 1) - 1);
    var t := EvictNewest(b, w, c.maxPendingPerWallet);
    NewestGone(b, w, c.maxPendingPerWallet);
    FirstFits(Mine(b, w), Max(c.maxPendingPerWallet, 1) - 1);
    assert t == MakeRoom(s, c, w, now);
    hide EvictOldest, EvictNewest, Sweep, MakeRoom, Mine, Part, First, Last;
    forall v ensures |Mine(t, v)| <= |Mine(s, v)| {
      PartShrinks(a, s, v);
      PartShrinks(b, a, v);
      PartShrinks(t, b, v);
    }
    PartShrinks(a, s, w);
    PartShrinks(b, a, w);
    PartShrinks(t, b, w);
  }

  lemma Swept(s: Store, now: Millis)
    requires s.Good()
    ensures var a := Sweep(s, now);
      a.Good() && Part(a, s) && forall n :: n in a.at ==> n in s.at && a.at[n] == s.at[n] && s.at[n].expiresAt > now
  {
    OnlyGood(s, Unexpired(s.at, now));
  }

  lemma LastFits<T>(s: seq<T>, n: nat)
    ensures |Last(s, n)| <= n
  {
  }

  lemma FirstFits<T>(s: seq<T>, n: nat)
    ensures |First(s, n)| <= n
  {
  }

  /** A new challenge goes to the end of its wallet's list, and of no other. */
  lemma PutLists(s: Store, n: Nonce, p: Pending, v: Address)
    requires s.Good() && n !in s.at
    ensures Mine(s.Put(n, p), v) == Mine(s, v) + if p.wallet == v then [n] else []
  {
    var t := s.Put(n, p);
    assert t.keys[..|t.keys| - 1] == s.keys;
    RestrictSame(s.keys, OfWallet(t.at, v), OfWallet(s.at, v));
  }

  lemma ChallengeCapped(s: Store, c: Config, w: Address, n: Nonce, now: Millis, issued: Millis)
    requires s.Good() && Capped(s, c) && n !in s.at
    ensures Capped(Challenge(s, c, w, n, now, issued), c)
  {
    RoomMade(s, c, w, now);
    var t := MakeRoom(s, c, w, now);
    hide MakeRoom;
    forall v ensures |Mine(Challenge(s, c, w, n, now, issued), v)| <= Max(c.maxPendingPerWallet, 1) {
      PutLists(t, n, Entry(c, w, n, issued), v);
    }
  }

  lemma PartCapped(s: Store, t: Store, c: Config)
    requires s.Good() && Part(t, s) && Capped(s, c)
    ensures Capped(t, c)
  {
    forall w ensures |t.keys| <= |s.keys| && |Mine(t, w)| <= |Mine(s, w)| {
      PartShrinks(t, s, w);
    }
    PartShrinks(t, s, 0);
  }

  lemma VerifyCapped(s: Store, c: Config, w: Address, n: Nonce, now: Millis, signs: bool)
    requires s.Good() && Capped(s, c)
    ensures Verify(s, c, w, n, now, signs).0.Good() && Capped(Verify(s, c, w, n, now, signs).0, c)
  {
    if n in s.at {
      OnlyGood(s, s.at.Keys - {n});
      PartCapped(s, s.Without(n), c);
      var t := s.(at := s.at[n := s.at[n].(attempts := s.at[n].attempts + 1)]);
      forall v ensures Mine(t, v) == Mine(s, v) {
        RestrictSame(s.keys, OfWallet(t.at, v), OfWallet(s.at, v));
      }
    }
  }
}
