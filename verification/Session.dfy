/** The browser's session cache (app/src/auth/session.ts): one request per wallet at a time, shared by every
    caller, and a sign-out that an answer on its way cannot undo. A promise is known by the number of the
    request behind it. `SessionCache.dfy` holds the promises themselves. */
module Session {
  import opened Basics

  const SKEW_SECS := 60

  type Token = string

  /** `expiresAt` is in seconds since the epoch. */
  datatype BackendSession = BackendSession(token: Token, wallet: Address, expiresAt: int)

  datatype Status = Waiting | Resolved(session: BackendSession) | Rejected

  datatype Request = Request(wallet: Address, status: Status)

  /** `cleared` remembers, for each wallet that signed out, how many requests had been made by then. */
  datatype State = State(cache: map<Address, BackendSession>, storage: map<Address, BackendSession>,
                         inFlight: map<Address, nat>, requests: seq<Request>, cleared: map<Address, nat>)

  /** What a caller gets: a session already held, or the promise of a request. */
  datatype Reply = Held(session: BackendSession) | Promised(request: nat)

  predicate IsFresh(s: BackendSession, now: int) {
    s.expiresAt - now > SKEW_SECS
  }

  /** The stored session, when it is for this wallet and still fresh. Text that does not parse counts as
      nothing stored. */
  function LoadStored(s: State, w: Address, now: int): Option<BackendSession> {
    if w in s.storage && s.storage[w].wallet == w && s.storage[w].token != "" && IsFresh(s.storage[w], now) then
      Some(s.storage[w]) else None
  }

  /** The session held for a wallet, if it is fresh: the cached one whenever there is one, even a stale one
      that hides a fresher one in storage. */
  function HeldSession(s: State, w: Address, now: int): Option<BackendSession> {
    var held := if w in s.cache then Some(s.cache[w]) else LoadStored(s, w, now);
    if held.Some? && IsFresh(held.value, now) then held else None
  }

  function Obtain(s: State, w: Address, now: int): (State, Reply) {
    match HeldSession(s, w, now)
    case Some(held) => (s.(cache := s.cache[w := held]), Held(held))
    case None =>
      if w in s.inFlight then (s, Promised(s.inFlight[w]))
      else (s.(inFlight := s.inFlight[w := |s.requests|], requests := s.requests + [Request(w, Waiting)]),
        Promised(|s.requests|))
  }

  predicate Current(s: State, i: nat)
    requires i < |s.requests|
  {
    s.requests[i].wallet in s.inFlight && s.inFlight[s.requests[i].wallet] == i
  }

  /** The backend answers request `i`; `stores` says whether the browser lets the session be stored. */
  function Resolve(s: State, i: nat, b: BackendSession, stores: bool): State
    requires i < |s.requests|
  {
    var w := s.requests[i].wallet;
    var t := s.(requests := s.requests[i := Request(w, Resolved(b))]);
    if !Current(s, i) then t
    else t.(inFlight := s.inFlight - {w}, cache := s.cache[w := b], storage := if stores then s.storage[w := b]
      else s.storage)
  }

  function Reject(s: State, i: nat): State
    requires i < |s.requests|
  {
    var w := s.requests[i].wallet;
    s.(requests := s.requests[i := Request(w, Rejected)], inFlight := if Current(s, i) then s.inFlight - {w}
      else s.inFlight)
  }

  /** Signs a wallet out. */
  function Clear(s: State, w: Address): State {
    State(s.cache - {w}, s.storage - {w}, s.inFlight - {w}, s.requests, s.cleared[w := |s.requests|])
  }

  function HeldToken(s: State, w: Address, now: int): Option<Token> {
    match HeldSession(s, w, now)
    case Some(b) => Some(b.token)
    case None => None
  }

  // ---- runs ----

  datatype Event =
    | ObtainCall(wallet: Address, now: int)
    | ResolveCall(request: nat, session: BackendSession, stores: bool)
    | RejectCall(request: nat)
    | ClearCall(wallet: Address)

  predicate Waits(s: State, i: nat) {
    i < |s.requests| && s.requests[i].status == Waiting
  }

  /** A promise settles once, and only with a session for the wallet it was asked for. */
  function Step(s: State, e: Event): State {
    match e
    case ObtainCall(w, now) => Obtain(s, w, now).0
    case ResolveCall(i, b, stores) =>
      if Waits(s, i) && b.wallet == s.requests[i].wallet then Resolve(s, i, b, stores) else s
    case RejectCall(i) => if Waits(s, i) then Reject(s, i) else s
    case ClearCall(w) => Clear(s, w)
  }

  /** A page load: nothing cached, and whatever an earlier page stored. */
  function Load(stored: map<Address, BackendSession>): State {
    State(map[], stored, map[], [], map[])
  }

  function Run(stored: map<Address, BackendSession>, es: seq<Event>): State {
    if es == [] then Load(stored) else Step(Run(stored, es[..|es| - 1]), es[|es| - 1])
  }

  // ---- what every reachable state keeps ----

  /** Request `i` was made after its wallet last signed out. */
  predicate SinceClear(s: State, w: Address, i: nat) {
    w in s.cleared ==> s.cleared[w] <= i
  }

  /** `b` answered a request for `w` made after `w` last signed out; or `w` never did, and `b` was stored by
      an earlier page. */
  ghost predicate Earned(s: State, stored: map<Address, BackendSession>, w: Address, b: BackendSession) {
    || (exists i :: 0 <= i < |s.requests| && s.requests[i] == Request(w, Resolved(b)) && SinceClear(s, w, i))
    || (w !in s.cleared && w in stored && stored[w] == b)
  }

  /** The request in flight for a wallet is the one that waits since it last signed out. */
  ghost predicate FlightGood(s: State) {
    && (forall w :: w in s.inFlight ==>
         s.inFlight[w] < |s.requests| && s.requests[s.inFlight[w]] == Request(w, Waiting))
    && (forall i :: 0 <= i < |s.requests| && s.requests[i].status == Waiting ==>
          (SinceClear(s, s.requests[i].wallet, i) <==> Current(s, i)))
    && (forall w :: w in s.cleared ==> s.cleared[w] <= |s.requests|)
  }

  ghost predicate AllEarned(s: State, held: map<Address, BackendSession>, stored: map<Address, BackendSession>) {
    forall w :: w in held ==> Earned(s, stored, w, held[w])
  }

  ghost predicate Inv(s: State, stored: map<Address, BackendSession>) {
    FlightGood(s) && AllEarned(s, s.cache, stored) && AllEarned(s, s.storage, stored)
  }

  /** Settled requests stay settled, so what was earned stays earned until the wallet signs out. */
  lemma EarnedStays(s: State, t: State, stored: map<Address, BackendSession>, w: Address, b: BackendSession)
    requires Earned(s, stored, w, b) && |s.requests| <= |t.requests|
    requires forall i :: 0 <= i < |s.requests| && s.requests[i].status != Waiting ==> t.requests[i] == s.requests[i]
    requires w in t.cleared <==> w in s.cleared
    requires w in s.cleared ==> t.cleared[w] == s.cleared[w]
    ensures Earned(t, stored, w, b)
  {
    if !(w !in s.cleared && w in stored && stored[w] == b) {
      var i :| 0 <= i < |s.requests| && s.requests[i] == Request(w, Resolved(b)) && SinceClear(s, w, i);
      assert t.requests[i] == Request(w, Resolved(b));
    }
  }

  lemma AllEarnedStays(s: State, t: State, held: map<Address, BackendSession>, stored: map<Address, BackendSession>)
    requires AllEarned(s, held, stored) && t.cleared == s.cleared && |s.requests| <= |t.requests|
    requires forall i :: 0 <= i < |s.requests| && s.requests[i].status != Waiting ==> t.requests[i] == s.requests[i]
    ensures AllEarned(t, held, stored)
  {
    forall w | w in held ensures Earned(t, stored, w, held[w]) {
      EarnedStays(s, t, stored, w, held[w]);
    }
  }

  lemma PutEarned(t: State, held: map<Address, BackendSession>, stored: map<Address, BackendSession>, w: Address,
                  b: BackendSession)
    requires AllEarned(t, held, stored) && Earned(t, stored, w, b)
    ensures AllEarned(t, held[w := b], stored)
  {
    hide Earned;
  }

  /** What `Obtain` changes: it caches a session that was held, or adds a request, or nothing. */
  lemma ObtainFields(s: State, w: Address, now: int)
    ensures var t := Obtain(s, w, now).0;
      && t.storage == s.storage && t.cleared == s.cleared && s.requests <= t.requests
      && (t.cache == s.cache
          || (w in s.cache && t.cache == s.cache[w := s.cache[w]])
          || (w in s.storage && t.cache == s.cache[w := s.storage[w]]))
  {
  }

  lemma ObtainInv(s: State, stored: map<Address, BackendSession>, w: Address, now: int)
    requires Inv(s, stored)
    ensures Inv(Obtain(s, w, now).0, stored)
  {
    var t := Obtain(s, w, now).0;
    ObtainFields(s, w, now);
    ObtainFlight(s, w, now);
    hide FlightGood, Obtain, Earned;
    AllEarnedStays(s, t, s.cache, stored);
    AllEarnedStays(s, t, s.storage, stored);
    if w in s.cache {
      PutEarned(t, s.cache, stored, w, s.cache[w]);
    }
    if w in s.storage {
      PutEarned(t, s.cache, stored, w, s.storage[w]);
    }
  }

  /** A call adds the request in flight, or changes neither requests nor flights. */
  lemma ObtainRequests(s: State, w: Address, now: int)
    ensures var t := Obtain(s, w, now).0;
      && t.cleared == s.cleared
      && ((t.requests == s.requests && t.inFlight == s.inFlight)
          || (w !in s.inFlight && t.requests == s.requests + [Request(w, Waiting)]
              && t.inFlight == s.inFlight[w := |s.requests|]))
  {
    hide HeldSession;
  }

  lemma ObtainFlight(s: State, w: Address, now: int)
    requires FlightGood(s)
    ensures FlightGood(Obtain(s, w, now).0)
  {
    ObtainRequests(s, w, now);
    hide Obtain;
    var t := Obtain(s, w, now).0;
    forall i | 0 <= i < |t.requests| && t.requests[i].status == Waiting
      ensures SinceClear(t, t.requests[i].wallet, i) <==> Current(t, i)
    {
      if i < |s.requests| {
        assert SinceClear(s, s.requests[i].wallet, i) <==> Current(s, i);
      }
    }
  }

  lemma ResolveFlight(s: State, i: nat, b: BackendSession, stores: bool)
    requires FlightGood(s) && Waits(s, i)
    ensures FlightGood(Resolve(s, i, b, stores)) && FlightGood(Reject(s, i))
  {
    SettledFlight(s, Resolve(s, i, b, stores), i);
    SettledFlight(s, Reject(s, i), i);
  }

  lemma SettledFlight(s: State, t: State, i: nat)
    requires FlightGood(s) && Waits(s, i) && t.cleared == s.cleared && |t.requests| == |s.requests|
    requires t.requests == s.requests[i := t.requests[i]] && t.requests[i].status != Waiting
    requires t.inFlight == if Current(s, i) then s.inFlight - {s.requests[i].wallet} else s.inFlight
    ensures FlightGood(t)
  {
    assert SinceClear(s, s.requests[i].wallet, i) <==> Current(s, i);
    forall j | 0 <= j < |t.requests| && t.requests[j].status == Waiting
      ensures SinceClear(t, t.requests[j].wallet, j) <==> Current(t, j)
    {
      assert t.requests[j] == s.requests[j];
      assert SinceClear(s, s.requests[j].wallet, j) <==> Current(s, j);
    }
  }

  lemma ResolveInv(s: State, stored: map<Address, BackendSession>, i: nat, b: BackendSession, stores: bool)
    requires Inv(s, stored) && Waits(s, i) && b.wallet == s.requests[i].wallet
    ensures Inv(Resolve(s, i, b, stores), stored)
  {
    var t := Resolve(s, i, b, stores);
    ResolveFlight(s, i, b, stores);
    AllEarnedStays(s, t, s.cache, stored);
    AllEarnedStays(s, t, s.storage, stored);
    if Current(s, i) {
      assert SinceClear(s, b.wallet, i);
      assert t.requests[i] == Request(b.wallet, Resolved(b)) && Earned(t, stored, b.wallet, b);
      hide FlightGood, Earned, AllEarned;
      PutEarned(t, s.cache, stored, b.wallet, b);
      PutEarned(t, s.storage, stored, b.wallet, b);
    } else {
      hide FlightGood, Earned, AllEarned;
    }
  }

  lemma RejectInv(s: State, stored: map<Address, BackendSession>, i: nat)
    requires Inv(s, stored) && Waits(s, i)
    ensures Inv(Reject(s, i), stored)
  {
    AllEarnedStays(s, Reject(s, i), s.cache, stored);
    AllEarnedStays(s, Reject(s, i), s.storage, stored);
    ResolveFlight(s, i, BackendSession("", s.requests[i].wallet, 0), false);
    hide FlightGood;
  }

  lemma ClearInv(s: State, stored: map<Address, BackendSession>, w: Address)
    requires Inv(s, stored)
    ensures Inv(Clear(s, w), stored)
  {
    ClearEarned(s, s.cache, stored, w);
    ClearEarned(s, s.storage, stored, w);
    ClearFlight(s, w);
    hide FlightGood, AllEarned;
  }

  lemma ClearEarned(s: State, held: map<Address, BackendSession>, stored: map<Address, BackendSession>, w: Address)
    requires AllEarned(s, held, stored)
    ensures AllEarned(Clear(s, w), held - {w}, stored)
  {
    forall v | v in held - {w} ensures Earned(Clear(s, w), stored, v, held[v]) {
      EarnedStays(s, Clear(s, w), stored, v, held[v]);
    }
  }

  lemma ClearFlight(s: State, w: Address)
    requires FlightGood(s)
    ensures FlightGood(Clear(s, w))
  {
    forall i | 0 <= i < |s.requests| && s.requests[i].status == Waiting
      ensures SinceClear(Clear(s, w), s.requests[i].wallet, i) <==> Current(Clear(s, w), i)
    {
      assert SinceClear(s, s.requests[i].wallet, i) <==> Current(s, i);
    }
  }

  lemma {:induction false} RunInv(stored: map<Address, BackendSession>, es: seq<Event>)
    ensures Inv(Run(stored, es), stored)
  {
    if es != [] {
      var s := Run(stored, es[..|es| - 1]);
      RunInv(stored, es[..|es| - 1]);
      match es[|es| - 1]
      case ObtainCall(w, now) => ObtainInv(s, stored, w, now);
      case ResolveCall(i, b, stores) =>
        if Waits(s, i) && b.wallet == s.requests[i].wallet {
          ResolveInv(s, stored, i, b, stores);
        }
      case RejectCall(i) =>
        if Waits(s, i) {
          RejectInv(s, stored, i);
        }
      case ClearCall(w) => ClearInv(s, stored, w);
    }
  }

  /** Of a wallet's requests made since it last signed out, at most one is waiting: the one in flight. A
      caller without a fresh session is handed that one, or starts the only one. */
  lemma OneRequestShared(stored: map<Address, BackendSession>, es: seq<Event>, w: Address, now: int, i: nat)
    requires var s := Run(stored, es); i < |s.requests| && s.requests[i] == Request(w, Waiting) && SinceClear(s, w, i)
    ensures var s := Run(stored, es);
      && Current(s, i)
      && (Obtain(s, w, now).1.Promised? ==> Obtain(s, w, now) == (s, Promised(i)))
  {
    RunInv(stored, es);
  }

  /** What is cached or stored for a wallet after it signed out answers a request made after that. */
  lemma NothingOutlivesSignOut(stored: map<Address, BackendSession>, es: seq<Event>, w: Address)
    requires w in Run(stored, es).cleared
    ensures var s := Run(stored, es);
      && (w in s.cache ==> exists i ::
           s.cleared[w] <= i < |s.requests| && s.requests[i] == Request(w, Resolved(s.cache[w])))
      && (w in s.storage ==> exists i ::
           s.cleared[w] <= i < |s.requests| && s.requests[i] == Request(w, Resolved(s.storage[w])))
  {
    RunInv(stored, es);
    var s := Run(stored, es);
    assert w in s.cache ==> Earned(s, stored, w, s.cache[w]);
    assert w in s.storage ==> Earned(s, stored, w, s.storage[w]);
  }

  /** A request made before its wallet signed out still answers whoever waits for it, and changes nothing
      else: neither the cache nor storage nor what is in flight. */
  lemma LateAnswerChangesNothing(stored: map<Address, BackendSession>, es: seq<Event>, i: nat, b: BackendSession,
                                 stores: bool)
    requires var s := Run(stored, es); Waits(s, i) && !SinceClear(s, s.requests[i].wallet, i)
    ensures var s := Run(stored, es);
      && Resolve(s, i, b, stores) == s.(requests := s.requests[i := Request(s.requests[i].wallet, Resolved(b))])
      && Reject(s, i) == s.(requests := s.requests[i := Request(s.requests[i].wallet, Rejected)])
  {
    RunInv(stored, es);
  }

  /** A failure is not cached: the next caller starts a new request. An answer is: the next caller gets it. */
  lemma AfterTheAnswer(stored: map<Address, BackendSession>, es: seq<Event>, i: nat, b: BackendSession, stores: bool,
                       now: int)
    requires var s := Run(stored, es); Waits(s, i) && Current(s, i) && b.wallet == s.requests[i].wallet
    ensures var s := Run(stored, es);
      var w := s.requests[i].wallet;
      && (HeldSession(s, w, now) == None ==> Obtain(Reject(s, i), w, now).1 == Promised(|s.requests|))
      && (b.expiresAt - now > 60 ==> Obtain(Resolve(s, i, b, stores), w, now).1 == Held(b))
  {
    RunInv(stored, es);
  }

  /** A session that lasts for more than another minute. */
  predicate Lasts(b: BackendSession, now: int) {
    b.expiresAt - now > 60
  }

  /** What a caller gets, in every reachable state: the cached session if it lasts; only when there is none cached, the
      stored one, if it is for this wallet, has a token and lasts; otherwise the promise of the one request that waits
      since the last sign-out, or of a new one. */
  lemma ObtainedExactly(stored: map<Address, BackendSession>, es: seq<Event>, w: Address, now: int, b: BackendSession)
    ensures var s := Run(stored, es);
      var t, reply := Obtain(s, w, now).0, Obtain(s, w, now).1;
      && (reply == Held(b) <==>
            && Lasts(b, now)
            && if w in s.cache then s.cache[w] == b
               else w in s.storage && s.storage[w] == b && b.wallet == w && b.token != "")
      && (reply.Held? ==> t == s.(cache := s.cache[w := reply.session]))
      && (reply.Promised? ==> reply.request < |t.requests| && t.requests[reply.request] == Request(w, Waiting))
      && (reply.Promised? && reply.request < |s.requests| ==> t == s && SinceClear(s, w, reply.request))
      && (reply.Promised? && reply.request >= |s.requests| ==>
            && t == s.(inFlight := s.inFlight[w := |s.requests|], requests := s.requests + [Request(w, Waiting)])
            && forall i :: 0 <= i < |s.requests| && s.requests[i] == Request(w, Waiting) ==> !SinceClear(s, w, i))
  {
    RunInv(stored, es);
    var s := Run(stored, es);
    hide Run;
    forall i | 0 <= i < |s.requests| && s.requests[i] == Request(w, Waiting)
      ensures SinceClear(s, w, i) <==> w in s.inFlight && s.inFlight[w] == i
    {
      assert Current(s, i) <==> SinceClear(s, w, i);
    }
  }

  /** The token held without asking the network is the one `obtainSession` would return at once. */
  lemma HeldTokenIsObtained(s: State, w: Address, now: int, token: Token)
    ensures HeldToken(s, w, now) == Some(token) <==>
      Obtain(s, w, now).1.Held? && Obtain(s, w, now).1.session.token == token
  {
  }
}
