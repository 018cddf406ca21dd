/** The session cache with its promises as objects: an answer looks whether the promise in flight for its
    wallet is still its own. */
module SessionCache {
  import opened Basics
  import S = Session

  class Promise {
    ghost const id: nat
    const wallet: Address
    var status: S.Status

    constructor (ghost id: nat, wallet: Address)
      ensures this.id == id && this.wallet == wallet && status == S.Waiting
    {
      this.id, this.wallet, status := id, wallet, S.Waiting;
    }
  }

  datatype Reply = Held(session: S.BackendSession) | Promised(promise: Promise)

  class Cache {
    var cache: map<Address, S.BackendSession>
    var storage: map<Address, S.BackendSession>
    var inFlight: map<Address, Promise>
    ghost var promises: seq<Promise>
    ghost var cleared: map<Address, nat>

    ghost predicate Valid()
      reads this
    {
      && (forall i :: 0 <= i < |promises| ==> promises[i].id == i)
      && (forall w :: w in inFlight ==> Made(inFlight[w]))
    }

    ghost predicate Made(p: Promise)
      reads this
    {
      p.id < |promises| && promises[p.id] == p
    }

    static ghost function Flights(inFlight: map<Address, Promise>): map<Address, nat> {
      map w | w in inFlight :: inFlight[w].id
    }

    static ghost function Requests(promises: seq<Promise>): (rs: seq<S.Request>)
      reads promises
      ensures |rs| == |promises|
    {
      seq(|promises|,
        i requires 0 <= i < |promises| reads promises => S.Request(promises[i].wallet, promises[i].status))
    }

    ghost function Abs(): S.State
      reads this, promises
    {
      S.State(cache, storage, Flights(inFlight), Requests(promises), cleared)
    }

    constructor (stored: map<Address, S.BackendSession>)
      ensures Valid() && Abs() == S.Load(stored) && promises == []
    {
      cache, storage, inFlight, promises, cleared := map[], stored, map[], [], map[];
      new;
      assert Requests(promises) == [];
    }

    method LoadStored(w: Address, now: int) returns (b: Option<S.BackendSession>)
      ensures b == S.LoadStored(Abs(), w, now)
    {
      if w !in storage || storage[w].wallet != w || storage[w].token == "" {
        return None;
      }
      return if S.IsFresh(storage[w], now) then Some(storage[w]) else None;
    }

    method HeldSession(w: Address, now: int) returns (b: Option<S.BackendSession>)
      ensures b == S.HeldSession(Abs(), w, now)
    {
      if w in cache {
        b := Some(cache[w]);
      } else {
        b := LoadStored(w, now);
      }
      if b.Some? && !S.IsFresh(b.value, now) {
        b := None;
      }
    }

    method HeldToken(w: Address, now: int) returns (t: Option<S.Token>)
      ensures t == S.HeldToken(Abs(), w, now)
    {
      var held := HeldSession(w, now);
      return if held.Some? then Some(held.value.token) else None;
    }

    method Obtain(w: Address, now: int) returns (r: Reply)
      requires Valid()
      modifies this`cache, this`inFlight, this`promises
      ensures Valid() && Abs() == S.Obtain(old(Abs()), w, now).0
      ensures match S.Obtain(old(Abs()), w, now).1
              case Held(b) => r == Held(b)
              case Promised(i) => r.Promised? && r.promise.id == i && Made(r.promise)
    {
      var held := HeldSession(w, now);
      if held.Some? {
        cache := cache[w := held.value];
        return Held(held.value);
      }
      if w in inFlight {
        return Promised(inFlight[w]);
      }
      var p := new Promise(|promises|, w);
      assert Requests(promises + [p]) == Requests(promises) + [S.Request(w, S.Waiting)];
      assert Flights(inFlight[w := p]) == Flights(inFlight)[w := p.id];
      inFlight := inFlight[w := p];
      promises := promises + [p];
      return Promised(p);
    }

    lemma Settled(p: Promise, was: seq<S.Request>)
      requires Valid() && Made(p) && |was| == |promises|
      requires forall i :: 0 <= i < |promises| && promises[i] != p ==>
        S.Request(promises[i].wallet, promises[i].status) == was[i]
      ensures Requests(promises) == was[p.id := S.Request(p.wallet, p.status)]
    {
    }

    method Settle(p: Promise, status: S.Status) returns (current: bool)
      requires Valid() && Made(p)
      modifies p`status
      ensures Requests(promises) == old(Requests(promises))[p.id := S.Request(p.wallet, status)]
      ensures p.id < |old(Requests(promises))| && old(Requests(promises))[p.id].wallet == p.wallet
      ensures current == S.Current(old(Abs()), p.id)
    {
      ghost var was := Requests(promises);
      assert forall i :: 0 <= i < |promises| ==> was[i] == S.Request(promises[i].wallet, promises[i].status);
      p.status := status;
      Settled(p, was);
      current := p.wallet in inFlight && inFlight[p.wallet] == p;
    }

    /** The backend answered. */
    method Resolve(p: Promise, b: S.BackendSession, stores: bool)
      requires Valid() && Made(p) && b.wallet == p.wallet
      modifies p`status, this`inFlight, this`cache, this`storage
      ensures Valid() && p.id < |old(Abs()).requests| && Abs() == S.Resolve(old(Abs()), p.id, b, stores)
    {
      assert Flights(inFlight - {p.wallet}) == Flights(inFlight) - {p.wallet};
      var current := Settle(p, S.Resolved(b));
      if current {
        inFlight := inFlight - {p.wallet};
        cache := cache[p.wallet := b];
        if stores {
          storage := storage[b.wallet := b];
        }
      }
    }

    method Reject(p: Promise)
      requires Valid() && Made(p)
      modifies p`status, this`inFlight
      ensures Valid() && p.id < |old(Abs()).requests| && Abs() == S.Reject(old(Abs()), p.id)
    {
      assert Flights(inFlight - {p.wallet}) == Flights(inFlight) - {p.wallet};
      var current := Settle(p, S.Rejected);
      if current {
        inFlight := inFlight - {p.wallet};
      }
    }

    method Clear(w: Address)
      requires Valid()
      modifies this
      ensures Valid() && Abs() == S.Clear(old(Abs()), w) && promises == old(promises)
    {
      assert Flights(inFlight - {w}) == Flights(inFlight) - {w};
      cache := cache - {w};
      inFlight := inFlight - {w};
      storage := storage - {w};
      cleared := cleared[w := |promises|];
    }
  }
}
