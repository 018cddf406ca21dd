/** Appraiser invitations (backend/src/invites.ts): one live invite per lease, each claimed by at most one
    wallet, none outliving the window it is for. `InviteStore.dfy` holds the records themselves. */
module Invites {
  import opened Basics

  /** A random invite name; each one is new. */
  type Id = nat

  /** Seconds since the epoch. */
  type Seconds = int

  type Hash = nat

  datatype Party = Landlord | Tenant

  /** What is read from the chain when an invite is issued. */
  datatype Lease = Lease(address: Address, landlord: Address, tenant: Address, inMediation: bool)

  datatype Dispute = Dispute(appraiser: Option<Address>, agreedNameHash: Option<Hash>, selectionDeadline: Seconds)

  datatype Invite = Invite(id: Id, lease: Address, nameHash: Hash, landlord: Address, tenant: Address,
                           selectionDeadline: Seconds, issuedBy: Party, expiresAt: Seconds,
                           wallet: Option<Address>, claimedAt: Option<Seconds>)

  /** What a link carries. A token that was not signed here cannot be told apart from noise. */
  datatype Token = Forged | Signed(id: Id, lease: Address, nameHash: Hash, expiresAt: Seconds)

  datatype Error =
    | NotAParty | LeaseNotInMediation | AppraiserAlreadyBound | NameNotAgreed | InvalidName | NameMismatch
    | SelectionWindowClosed | InviteInvalid | InviteExpired | AlreadyClaimed | WalletIsParty

  datatype Store = Store(byId: map<Id, Invite>, idByLease: map<Address, Id>)

  const EMPTY := Store(map[], map[])

  function Sec(now: Millis): Seconds { now / 1_000 }

  function Sweep(s: Store, now: Millis): Store {
    Store(map i | i in s.byId && s.byId[i].expiresAt > Sec(now) :: s.byId[i],
          map l | l in s.idByLease
            && !(s.idByLease[l] in s.byId && s.byId[s.idByLease[l]].lease == l
            && s.byId[s.idByLease[l]].expiresAt <= Sec(now))
            :: s.idByLease[l])
  }

  function PartyOf(lease: Lease, caller: Address): Option<Party> {
    if caller == lease.landlord then Some(Landlord) else if caller == lease.tenant then Some(Tenant) else None
  }

  /** The checks of `issue`, in its order; `nameHash` is None when the name given cannot be displayed. */
  function Issuable(lease: Lease, dispute: Option<Dispute>, nameHash: Option<Hash>,
                    caller: Address): Result<Party, Error> {
    match PartyOf(lease, caller)
    case None => Failure(NotAParty)
    case Some(party) =>
      if !lease.inMediation then Failure(LeaseNotInMediation)
      else match dispute
        case None => Failure(LeaseNotInMediation)
        case Some(d) =>
          if d.appraiser.Some? then Failure(AppraiserAlreadyBound)
          else if d.agreedNameHash == None then Failure(NameNotAgreed)
          else if nameHash == None then Failure(InvalidName)
          else if nameHash != d.agreedNameHash then Failure(NameMismatch)
          else Success(party)
  }

  function ExpiryFor(now: Millis, ttl: Seconds, deadline: Seconds): Seconds {
    Min(Sec(now) + ttl, deadline)
  }

  /** The invite replaces the one its lease had. */
  function Put(s: Store, i: Invite): Store {
    var rest := if i.lease in s.idByLease then s.byId - {s.idByLease[i.lease]} else s.byId;
    Store(rest[i.id := i], s.idByLease[i.lease := i.id])
  }

  function Issue(s: Store, id: Id, lease: Lease, dispute: Option<Dispute>, nameHash: Option<Hash>, caller: Address,
                 now: Millis, ttl: Seconds): (Store, Result<Token, Error>)
  {
    match Issuable(lease, dispute, nameHash, caller)
    case Failure(why) => (s, Failure(why))
    case Success(party) =>
      var deadline := dispute.value.selectionDeadline;
      var expiresAt := ExpiryFor(now, ttl, deadline);
      if expiresAt <= Sec(now) then (s, Failure(SelectionWindowClosed))
      else
        var i := Invite(id, lease.address, nameHash.value, lease.landlord, lease.tenant, deadline, party, expiresAt,
          None, None);
        (Put(s, i), Success(Signed(id, lease.address, nameHash.value, expiresAt)))
  }

  /** The record behind a token. */
  function Resolve(s: Store, token: Token, now: Millis): Result<Invite, Error> {
    if token.Forged? then Failure(InviteInvalid)
    else if token.expiresAt * 1_000 <= now then Failure(InviteExpired)
    else if token.id !in s.byId then Failure(InviteInvalid)
    else
      var i := s.byId[token.id];
      if i.lease != token.lease || i.nameHash != token.nameHash then Failure(InviteInvalid)
      else if i.expiresAt * 1_000 <= now then Failure(InviteExpired)
      else Success(i)
  }

  function Claim(s: Store, token: Token, wallet: Address, now: Millis): (Store, Result<Invite, Error>) {
    match Resolve(s, token, now)
    case Failure(why) => (s, Failure(why))
    case Success(i) =>
      if i.wallet.Some? then (s, if i.wallet == Some(wallet) then Success(i) else Failure(AlreadyClaimed))
      else if wallet == i.landlord || wallet == i.tenant then (s, Failure(WalletIsParty))
      else
        var claimed := i.(wallet := Some(wallet), claimedAt := Some(Sec(now)));
        (s.(byId := s.byId[token.id := claimed]), Success(claimed))
  }

  // ---- what every reachable store keeps ----

  /** Each invite is the one its lease points to, and each lease points to one of its own. */
  ghost predicate Inverse(s: Store) {
    && (forall i :: i in s.byId ==>
         s.byId[i].id == i && s.byId[i].lease in s.idByLease && s.idByLease[s.byId[i].lease] == i)
    && (forall l :: l in s.idByLease ==> s.idByLease[l] in s.byId && s.byId[s.idByLease[l]].lease == l)
  }

  /** An invite ends no later than the selection window; its wallet is claimed in time, by no party. */
  predicate Sound(i: Invite) {
    && i.expiresAt <= i.selectionDeadline
    && (i.wallet.Some? <==> i.claimedAt.Some?)
    && (i.wallet.Some? ==>
         i.wallet.value != i.landlord && i.wallet.value != i.tenant && i.claimedAt.value < i.expiresAt)
  }

  ghost predicate Inv(s: Store) {
    Inverse(s) && forall i :: i in s.byId ==> Sound(s.byId[i])
  }

  lemma SweepInv(s: Store, now: Millis)
    requires Inv(s)
    ensures Inv(Sweep(s, now))
  {
  }

  lemma IssueInv(s: Store, id: Id, lease: Lease, dispute: Option<Dispute>, nameHash: Option<Hash>, caller: Address,
                 now: Millis, ttl: Seconds)
    requires Inv(s) && id !in s.byId
    ensures Inv(Issue(s, id, lease, dispute, nameHash, caller, now, ttl).0)
  {
  }

  lemma ClaimInv(s: Store, token: Token, wallet: Address, now: Millis)
    requires Inv(s)
    ensures Inv(Claim(s, token, wallet, now).0)
  {
  }

  /** An invite goes out exactly when a party asks, in mediation, before an appraiser is bound, for the name
      agreed on, while the selection window is open; it never outlives that window. */
  lemma IssuedExactly(s: Store, id: Id, lease: Lease, dispute: Option<Dispute>, nameHash: Option<Hash>, caller: Address,
                      now: Millis, ttl: Seconds)
    ensures var r := Issue(s, id, lease, dispute, nameHash, caller, now, ttl).1;
      && (r.Success? <==>
            && (caller == lease.landlord || caller == lease.tenant) && lease.inMediation && dispute.Some?
            && dispute.value.appraiser == None && nameHash.Some? && nameHash == dispute.value.agreedNameHash
            && now / 1_000 < dispute.value.selectionDeadline && ttl > 0)
      && (r.Success? ==>
            && r.value.expiresAt == Min(now / 1_000 + ttl, dispute.value.selectionDeadline)
            && now / 1_000 < r.value.expiresAt <= dispute.value.selectionDeadline)
  {
  }

  // ---- runs ----

  datatype Event =
    | SweepCall(now: Millis)
    | IssueCall(id: Id, lease: Lease, dispute: Option<Dispute>, nameHash: Option<Hash>, caller: Address, now: Millis,
      ttl: Seconds)
    | ClaimCall(token: Token, wallet: Address, now: Millis)

  function Step(s: Store, e: Event): Store {
    match e
    case SweepCall(now) => Sweep(s, now)
    case IssueCall(id, lease, dispute, nameHash, caller, now, ttl) =>
      Issue(s, id, lease, dispute, nameHash, caller, now, ttl).0
    case ClaimCall(token, wallet, now) => Claim(Sweep(s, now), token, wallet, now).0
  }

  function RunFrom(s: Store, es: seq<Event>): Store {
    if es == [] then s else Step(RunFrom(s, es[..|es| - 1]), es[|es| - 1])
  }

  function Ids(es: seq<Event>): set<Id> {
    set e | e in es && e.IssueCall? :: e.id
  }

  /** Ids are never used twice, nor taken from `used`. */
  ghost predicate Fresh(es: seq<Event>, used: set<Id>) {
    es == [] || (Fresh(es[..|es| - 1], used)
      && (es[|es| - 1].IssueCall? ==> es[|es| - 1].id !in used + Ids(es[..|es| - 1])))
  }

  lemma IdsLast(es: seq<Event>)
    requires es != []
    ensures Ids(es) == Ids(es[..|es| - 1]) + if es[|es| - 1].IssueCall? then {es[|es| - 1].id} else {}
  {
    assert es == es[..|es| - 1] + [es[|es| - 1]];
  }

  lemma StepInv(s: Store, e: Event)
    requires Inv(s) && (e.IssueCall? ==> e.id !in s.byId)
    ensures Inv(Step(s, e))
  {
    match e
    case SweepCall(now) => SweepInv(s, now);
    case IssueCall(id, lease, dispute, nameHash, caller, now, ttl) =>
      IssueInv(s, id, lease, dispute, nameHash, caller, now, ttl);
    case ClaimCall(token, wallet, now) =>
      SweepInv(s, now);
      ClaimInv(Sweep(s, now), token, wallet, now);
  }

  /** What a step leaves of an invite: it is gone, or it is as it was but perhaps claimed for the first
      time; nothing appears but the one issued. */
  lemma StepKeeps(s: Store, e: Event, i: Id)
    requires i in Step(s, e).byId && (e.IssueCall? ==> e.id != i)
    ensures var t := Step(s, e);
      && i in s.byId && t.byId[i] == s.byId[i].(wallet := t.byId[i].wallet, claimedAt := t.byId[i].claimedAt)
      && (s.byId[i].wallet.Some? ==> t.byId[i] == s.byId[i])
  {
  }

  lemma {:induction false} RunInv(s: Store, es: seq<Event>, used: set<Id>)
    requires Inv(s) && s.byId.Keys <= used && Fresh(es, used)
    ensures Inv(RunFrom(s, es)) && RunFrom(s, es).byId.Keys <= used + Ids(es)
  {
    if es != [] {
      var earlier, e := es[..|es| - 1], es[|es| - 1];
      RunInv(s, earlier, used);
      IdsLast(es);
      var t := RunFrom(s, earlier);
      StepInv(t, e);
      forall i | i in Step(t, e).byId ensures i in used + Ids(es) {
        if !(e.IssueCall? && e.id == i) {
          StepKeeps(t, e, i);
        }
      }
    }
  }

  /** In every reachable store the two maps are inverse to each other, expiry is within the selection window
      and a claimed wallet is no party of the lease. */
  lemma StoreSound(es: seq<Event>)
    requires Fresh(es, {})
    ensures Inv(RunFrom(EMPTY, es))
  {
    RunInv(EMPTY, es, {});
  }

  /** An invite that is still there never changes hands: once claimed, it keeps its wallet and the time, and
      it is for the same lease, parties, name and window as ever. */
  lemma {:induction false} ClaimedOnce(s: Store, es: seq<Event>, used: set<Id>, i: Id)
    requires Inv(s) && s.byId.Keys <= used && Fresh(es, used) && i in s.byId && i in RunFrom(s, es).byId
    ensures var t := RunFrom(s, es);
      && t.byId[i] == s.byId[i].(wallet := t.byId[i].wallet, claimedAt := t.byId[i].claimedAt)
      && (s.byId[i].wallet.Some? ==> t.byId[i] == s.byId[i])
  {
    if es != [] {
      var earlier, e := es[..|es| - 1], es[|es| - 1];
      StepKeeps(RunFrom(s, earlier), e, i);
      ClaimedOnce(s, earlier, used, i);
    }
  }

  lemma {:induction false} GoneForGood(s: Store, es: seq<Event>, used: set<Id>, i: Id)
    requires Fresh(es, used) && i in used && i !in s.byId
    ensures i !in RunFrom(s, es).byId
  {
    if es != [] {
      var earlier, e := es[..|es| - 1], es[|es| - 1];
      GoneForGood(s, earlier, used, i);
      if i in Step(RunFrom(s, earlier), e).byId {
        StepKeeps(RunFrom(s, earlier), e, i);
      }
    }
  }

  /** Issuing again for a lease kills the token of the invite it had, in every later state. */
  lemma ReissueKillsOldToken(s: Store, e: Event, es: seq<Event>, used: set<Id>, token: Token, wallet: Address,
                             now: Millis)
    requires Inv(s) && s.byId.Keys <= used && e.IssueCall? && e.id !in used && Fresh(es, used + {e.id})
    requires Issue(s, e.id, e.lease, e.dispute, e.nameHash, e.caller, e.now, e.ttl).1.Success?
    requires token.Signed? && token.id in s.byId && token.lease == e.lease.address
    requires s.byId[token.id].lease == token.lease
    ensures Resolve(RunFrom(Step(s, e), es), token, now).Failure?
    ensures Claim(RunFrom(Step(s, e), es), token, wallet, now).1.Failure?
  {
    assert token.id !in Step(s, e).byId;
    GoneForGood(Step(s, e), es, used + {e.id}, token.id);
  }

  /** A token opens only the invite it was issued with, before that expires, and so within the selection
      window; whoever holds another lease's token, or one for another name, gets nothing. */
  lemma ResolvedIsBound(es: seq<Event>, token: Token, now: Millis)
    requires Fresh(es, {}) && Resolve(RunFrom(EMPTY, es), token, now).Success?
    ensures token.Signed?
    ensures var i := Resolve(RunFrom(EMPTY, es), token, now).value;
      && i.id == token.id && i.lease == token.lease && i.nameHash == token.nameHash
      && now < i.expiresAt * 1_000 <= i.selectionDeadline * 1_000
  {
    StoreSound(es);
  }

  /** After a claim, and whatever happens next, the same wallet is answered with the same record for as long as the
      token opens the invite, and every other wallet is refused. */
  lemma ClaimIsFinal(s: Store, es: seq<Event>, used: set<Id>, token: Token, wallet: Address, other: Address,
                     now: Millis, later: Millis)
    requires Inv(s) && s.byId.Keys <= used && Fresh(es, used) && Claim(s, token, wallet, now).1.Success?
    requires Resolve(RunFrom(Claim(s, token, wallet, now).0, es), token, later).Success?
    ensures var i, t := Claim(s, token, wallet, now).1.value, RunFrom(Claim(s, token, wallet, now).0, es);
      && i.wallet == Some(wallet) && wallet != i.landlord && wallet != i.tenant
      && Claim(t, token, wallet, later) == (t, Success(i))
      && (other != wallet ==> Claim(t, token, other, later) == (t, Failure(AlreadyClaimed)))
  {
    ClaimInv(s, token, wallet, now);
    ClaimedOnce(Claim(s, token, wallet, now).0, es, used, token.id);
  }
}
