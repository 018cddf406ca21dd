/** The challenge store as the program keeps it: a map of pending challenges in insertion order and, per
    wallet, the list of its nonces. The second map is always exactly what the first one implies. */
module WalletAuthStore {
  import opened Basics
  import opened Tables
  import W = WalletAuth

  lemma {:induction false} WithoutIsRestrict(ns: seq<W.Nonce>, n: W.Nonce, s: set<W.Nonce>)
    requires forall x :: x in ns ==> (x in s <==> x != n)
    ensures Without(ns, n) == Restrict(ns, s)
  {
    if ns != [] {
      WithoutIsRestrict(ns[..|ns| - 1], n, s);
    }
  }

  class Auth {
    const config: W.Config
    var pending: W.Store
    var byWallet: map<Address, seq<W.Nonce>>

    /** `byWallet` lists, in issue order and without duplicates, exactly the pending nonces of each wallet
        that has any. */
    ghost predicate Valid()
      reads this
    {
      pending.Good() && Indexed(pending, byWallet)
    }

    static ghost predicate Indexed(pending: W.Store, byWallet: map<Address, seq<W.Nonce>>) {
      forall w :: if w in byWallet then byWallet[w] == W.Mine(pending, w) != [] else W.Mine(pending, w) == []
    }

    constructor (config: W.Config)
      ensures Valid() && pending == W.EMPTY && this.config == config
    {
      this.config, pending, byWallet := config, W.EMPTY, map[];
    }

    function Listed(w: Address): seq<W.Nonce>
      reads this
    {
      if w in byWallet then byWallet[w] else []
    }

    static lemma MineAfterDrop(s: W.Store, n: W.Nonce, v: Address)
      requires s.Good() && n in s.at
      ensures W.Mine(W.Drop(s, n), v) == if s.at[n].wallet == v then Without(W.Mine(s, v), n) else W.Mine(s, v)
    {
      if s.at[n].wallet == v {
        W.MineIn(s, v);
        W.MineOnly(s, s.at.Keys - {n}, v);
        WithoutIsRestrict(W.Mine(s, v), n, s.at.Keys - {n});
      } else {
        W.OthersLists(s, n, v);
      }
    }

    lemma DropIndexed(n: W.Nonce, t: map<Address, seq<W.Nonce>>)
      requires Valid() && n in pending.at
      requires var w := pending.at[n].wallet; var rest := Without(Listed(w), n);
               t == if rest == [] then byWallet - {w} else byWallet[w := rest]
      ensures W.Drop(pending, n).Good() && Indexed(W.Drop(pending, n), t)
    {
      OnlyGood(pending, pending.at.Keys - {n});
      hide W.Mine;
      forall v ensures if v in t then t[v] == W.Mine(W.Drop(pending, n), v) != []
        else W.Mine(W.Drop(pending, n), v) == [] {
        MineAfterDrop(pending, n, v);
      }
    }

    method Drop(n: W.Nonce)
      requires Valid()
      modifies this`pending, this`byWallet
      ensures Valid() && pending == W.Drop(old(pending), n)
    {
      if n !in pending.at {
        return;
      }
      var w := pending.at[n].wallet;
      var rest := Without(Listed(w), n);
      DropIndexed(n, if rest == [] then byWallet - {w} else byWallet[w := rest]);
      pending := pending.Without(n);
      if |rest| == 0 {
        byWallet := byWallet - {w};
      } else {
        byWallet := byWallet[w := rest];
      }
    }

    /** The nonces still there after the first `i` of `keys` were visited by a sweep. */
    static ghost function Left(was: W.Store, i: nat, now: Millis): set<W.Nonce>
      requires i <= |was.keys|
    {
      set n | n in was.at && (n in W.Unexpired(was.at, now) || n in was.keys[i..])
    }

    method Sweep(now: Millis)
      requires Valid()
      modifies this`pending, this`byWallet
      ensures Valid() && pending == W.Sweep(old(pending), now)
    {
      ghost var was := pending;
      var nonces := pending.keys;
      OnlyAll(was, Left(was, 0, now));
      for i := 0 to |nonces|
        invariant Valid() && nonces == was.keys && pending == was.Only(Left(was, i, now))
      {
        var n := nonces[i];
        SweepStep(was, i, now);
        if n in pending.at && pending.at[n].expiresAt <= now {
          Drop(n);
        }
      }
      OnlySame(was, Left(was, |nonces|, now), W.Unexpired(was.at, now));
    }

    static lemma SweepStep(was: W.Store, i: nat, now: Millis)
      requires was.Good() && i < |was.keys|
      ensures var n, s := was.keys[i], was.Only(Left(was, i, now));
        && n in s.at && s.at[n] == was.at[n]
        && was.Only(Left(was, i + 1, now)) == if s.at[n].expiresAt <= now then W.Drop(s, n) else s
    {
      var n, s := was.keys[i], was.Only(Left(was, i, now));
      LeftNext(was, i, now);
      assert n in was.at && n in Left(was, i, now);
      if was.at[n].expiresAt <= now {
        OnlyTwice(was, Left(was, i, now), s.at.Keys - {n});
        hide Left;
        OnlySame(was, Left(was, i, now) * (s.at.Keys - {n}), Left(was, i + 1, now));
      }
    }

    /** Visiting a nonce takes it out of those still to visit. */
    static lemma LeftNext(was: W.Store, i: nat, now: Millis)
      requires was.Good() && i < |was.keys|
      ensures var n := was.keys[i];
        Left(was, i + 1, now) == if n in was.at && was.at[n].expiresAt <= now then Left(was, i, now) - {n}
          else Left(was, i, now)
    {
      var n := was.keys[i];
      assert was.keys[i..] == [n] + was.keys[i + 1..];
      assert n !in was.keys[i + 1..];
    }

    method EvictOldest()
      requires Valid()
      modifies this`pending, this`byWallet
      ensures Valid() && pending == W.EvictOldest(old(pending), config.maxPending)
    {
      while |pending.keys| > 0 && |pending.keys| >= config.maxPending
        invariant Valid() && W.EvictOldest(pending, config.maxPending) == W.EvictOldest(old(pending), config.maxPending)
        decreases |pending.keys|
      {
        WithoutFirst(pending);
        Drop(pending.keys[0]);
      }
    }

    method EvictNewest(w: Address)
      requires Valid()
      modifies this`pending, this`byWallet
      ensures Valid() && pending == W.EvictNewest(old(pending), w, config.maxPendingPerWallet)
    {
      ListedIsMine(w);
      hide Valid, W.Mine, W.EvictNewest;
      while w in byWallet && |byWallet[w]| > 0 && |byWallet[w]| >= config.maxPendingPerWallet
        invariant Valid() && pending.Good()
        invariant W.EvictNewest(pending, w, config.maxPendingPerWallet)
          == W.EvictNewest(old(pending), w, config.maxPendingPerWallet)
        decreases |Listed(w)|
      {
        DropNewest(w);
      }
      NewestDone(w);
    }

    method DropNewest(w: Address)
      requires Valid() && pending.Good() && w in byWallet && |byWallet[w]| > 0
        && |byWallet[w]| >= config.maxPendingPerWallet
      modifies this`pending, this`byWallet
      ensures Valid() && pending.Good() && |Listed(w)| < old(|Listed(w)|)
      ensures W.EvictNewest(pending, w, config.maxPendingPerWallet)
        == W.EvictNewest(old(pending), w, config.maxPendingPerWallet)
    {
      hide *;
      NewestStep(w);
      ListedIsMine(w);
      var mine := byWallet[w];
      Drop(mine[|mine| - 1]);
      ListedIsMine(w);
    }

    lemma ListedIsMine(w: Address)
      requires Valid()
      ensures Listed(w) == W.Mine(pending, w) && pending.Good()
    {
    }

    lemma NewestStep(w: Address)
      requires Valid() && w in byWallet && |byWallet[w]| > 0 && |byWallet[w]| >= config.maxPendingPerWallet
      ensures pending.Good()
      ensures var mine := byWallet[w];
        var t := W.Drop(pending, mine[|mine| - 1]);
        && t.Good()
        && W.EvictNewest(pending, w, config.maxPendingPerWallet) == W.EvictNewest(t, w, config.maxPendingPerWallet)
        && |W.Mine(t, w)| < |mine| && mine == W.Mine(pending, w)
    {
      W.DropNewest(pending, w);
    }

    lemma NewestDone(w: Address)
      requires Valid() && !(w in byWallet && |byWallet[w]| > 0 && |byWallet[w]| >= config.maxPendingPerWallet)
      ensures pending.Good() && pending == W.EvictNewest(pending, w, config.maxPendingPerWallet)
    {
    }

    /** Issues a challenge under a nonce that is not pending. */
    method Challenge(w: Address, n: W.Nonce, now: Millis, issued: Millis)
        returns (message: W.Message, expiresAt: Millis)
      requires Valid() && n !in pending.at
      modifies this`pending, this`byWallet
      ensures Valid() && pending == W.Challenge(old(pending), config, w, n, now, issued)
      ensures n in pending.at && pending.at[n] == W.Pending(w, message, expiresAt, 0)
    {
      hide W.Mine, Indexed, W.Sweep, W.EvictOldest, W.EvictNewest;
      W.RoomMade(pending, config, w, now);
      Sweep(now);
      EvictOldest();
      EvictNewest(w);
      assert pending == W.MakeRoom(old(pending), config, w, now);
      var entry := W.Entry(config, w, n, issued);
      message, expiresAt := entry.message, entry.expiresAt;
      PutIndexed(n, entry);
      hide W.MakeRoom;
      byWallet := byWallet[w := Listed(w) + [n]];
      pending := pending.Put(n, entry);
    }

    lemma PutIndexed(n: W.Nonce, p: W.Pending)
      requires Valid() && n !in pending.at
      ensures pending.Put(n, p).Good() && Indexed(pending.Put(n, p), byWallet[p.wallet := Listed(p.wallet) + [n]])
    {
      PutGood(pending, n, p);
      var t, listed := pending.Put(n, p), byWallet[p.wallet := Listed(p.wallet) + [n]];
      hide W.Mine;
      forall v ensures if v in listed then listed[v] == W.Mine(t, v) != [] else W.Mine(t, v) == [] {
        PutIndexedAt(pending, byWallet, n, p, Listed(p.wallet), v);
      }
    }

    static lemma PutIndexedAt(pending: W.Store, byWallet: map<Address, seq<W.Nonce>>, n: W.Nonce, p: W.Pending,
                              mine: seq<W.Nonce>, v: Address)
      requires pending.Good() && n !in pending.at && Indexed(pending, byWallet)
      requires mine == if p.wallet in byWallet then byWallet[p.wallet] else []
      ensures var t, listed := pending.Put(n, p), byWallet[p.wallet := mine + [n]];
        if v in listed then listed[v] == W.Mine(t, v) != [] else W.Mine(t, v) == []
    {
      W.PutLists(pending, n, p, v);
      hide W.Mine;
    }

    method VerifyLogin(w: Address, n: W.Nonce, now: Millis, signs: bool) returns (v: W.Verdict)
      requires Valid()
      modifies this`pending, this`byWallet
      ensures Valid() && (pending, v) == W.Verify(old(pending), config, w, n, now, signs)
    {
      if n !in pending.at || pending.at[n].wallet != w {
        return W.NoChallenge;
      }
      if pending.at[n].expiresAt <= now {
        Drop(n);
        return W.Expired;
      }
      if !signs {
        ghost var was := pending;
        var p := pending.at[n].(attempts := pending.at[n].attempts + 1);
        pending := pending.(at := pending.at[n := p]);
        Counted(was, n, p);
        assert pending.at.Keys == was.at.Keys;
        if p.attempts >= config.maxAttempts {
          Drop(n);
          assert pending.at == W.Drop(was, n).at;
        }
        return W.BadSignature;
      }
      Drop(n);
      return W.LoggedIn;
    }

    /** Counting a bad signature leaves every list as it is. */
    lemma Counted(was: W.Store, n: W.Nonce, p: W.Pending)
      requires was.Good() && Indexed(was, byWallet) && n in was.at && p.wallet == was.at[n].wallet
      ensures was.(at := was.at[n := p]).Good() && Indexed(was.(at := was.at[n := p]), byWallet)
    {
      var t := was.(at := was.at[n := p]);
      forall v ensures W.Mine(t, v) == W.Mine(was, v) {
        RestrictSame(was.keys, W.OfWallet(t.at, v), W.OfWallet(was.at, v));
      }
    }
  }
}
