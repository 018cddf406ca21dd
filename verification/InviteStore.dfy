/** The invitation store as the program keeps it: records changed in place, reached by id or by lease. */
module InviteStore {
  import opened Basics
  import I = Invites

  class Record {
    const id: I.Id
    const lease: Address
    const nameHash: I.Hash
    const landlord: Address
    const tenant: Address
    const selectionDeadline: I.Seconds
    const issuedBy: I.Party
    const expiresAt: I.Seconds
    var wallet: Option<Address>
    var claimedAt: Option<I.Seconds>

    constructor (i: I.Invite)
      ensures Value() == i
    {
      id, lease, nameHash, landlord, tenant := i.id, i.lease, i.nameHash, i.landlord, i.tenant;
      selectionDeadline, issuedBy, expiresAt, wallet, claimedAt := i.selectionDeadline, i.issuedBy, i.expiresAt,
      i.wallet, i.claimedAt;
    }

    function Value(): I.Invite
      reads this
    {
      I.Invite(id, lease, nameHash, landlord, tenant, selectionDeadline, issuedBy, expiresAt, wallet, claimedAt)
    }
  }

  ghost function Values(byId: map<I.Id, Record>): map<I.Id, I.Invite>
    reads byId.Values
  {
    map i | i in byId :: byId[i].Value()
  }

  class Store {
    var byId: map<I.Id, Record>
    var idByLease: map<Address, I.Id>

    ghost function Abs(): I.Store
      reads this, byId.Values
    {
      I.Store(Values(byId), idByLease)
    }

    ghost predicate Valid()
      reads this, byId.Values
    {
      I.Inv(Abs())
    }

    constructor ()
      ensures Valid() && Abs() == I.EMPTY
    {
      byId, idByLease := map[], map[];
      new;
      assert Values(byId) == map[];
    }

    /** The two maps point at each other; a record's links never change. */
    static ghost predicate Linked(byId: map<I.Id, Record>, idByLease: map<Address, I.Id>) {
      && (forall i :: i in byId ==> byId[i].id == i && byId[i].lease in idByLease && idByLease[byId[i].lease] == i)
      && (forall l :: l in idByLease ==> idByLease[l] in byId && byId[idByLease[l]].lease == l)
    }

    lemma Opened()
      requires Valid()
      ensures Linked(byId, idByLease) && I.Inv(Abs()) && Abs() == I.Store(Values(byId), idByLease)
    {
      assert forall i :: i in byId ==> Abs().byId[i] == byId[i].Value();
    }

    lemma Closed(s: I.Store)
      requires I.Inv(s) && s == I.Store(Values(byId), idByLease)
      ensures Valid() && Abs() == s
    {
    }

    method Sweep(now: Millis)
      requires Valid()
      modifies this
      ensures Valid() && Abs() == I.Sweep(old(Abs()), now) && byId.Values <= old(byId.Values)
    {
      ghost var was, records := Abs(), byId;
      Opened();
      I.SweepInv(was, now);
      hide I.Inv, Valid, Values, I.Sweep;
      SweepLoop(now / 1_000);
      Swept(records, was, now);
      Closed(I.Sweep(was, now));
    }

    lemma Swept(records: map<I.Id, Record>, was: I.Store, now: Millis)
      requires was.byId == Values(records) && Linked(records, was.idByLease)
      requires byId == map i | i in records && records[i].expiresAt > I.Sec(now) :: records[i]
      requires idByLease == map l | l in was.idByLease && was.idByLease[l] in byId :: was.idByLease[l]
      ensures I.Store(Values(byId), idByLease) == I.Sweep(was, now)
    {
      assert forall i :: i in records ==> was.byId[i] == records[i].Value();
      assert Values(byId) == I.Sweep(was, now).byId;
      assert idByLease == I.Sweep(was, now).idByLease;
    }

    method SweepLoop(cutoff: I.Seconds)
      requires Linked(byId, idByLease)
      modifies this
      ensures byId == map i | i in old(byId) && old(byId)[i].expiresAt > cutoff :: old(byId)[i]
      ensures idByLease == map l | l in old(idByLease) && old(idByLease)[l] in byId :: old(idByLease)[l]
      ensures byId.Values <= old(byId.Values)
    {
      ghost var all, leases := byId, idByLease;
      var todo := byId.Keys;
      while todo != {}
        invariant todo <= all.Keys && byId.Keys <= all.Keys && idByLease.Keys <= leases.Keys
        invariant forall i :: i in byId ==> byId[i] == all[i]
        invariant forall l :: l in idByLease ==> idByLease[l] == leases[l]
        invariant forall i :: i in all ==> (i in byId <==> i in todo || all[i].expiresAt > cutoff)
        invariant forall l :: l in leases ==> (l in idByLease <==> leases[l] in byId)
        decreases todo
      {
        var i :| i in todo;
        todo := todo - {i};
        if byId[i].expiresAt <= cutoff {
          var lease := byId[i].lease;
          byId := byId - {i};
          if lease in idByLease && idByLease[lease] == i {
            idByLease := idByLease - {lease};
          }
        }
      }
    }

    /** The last, synchronous part of issuing: the new record replaces the one its lease had. */
    method Issue(id: I.Id, lease: I.Lease, dispute: Option<I.Dispute>, nameHash: Option<I.Hash>, caller: Address,
                 now: Millis, ttl: I.Seconds) returns (r: Result<I.Token, I.Error>)
      requires Valid() && id !in byId
      modifies this
      ensures Valid() && (Abs(), r) == I.Issue(old(Abs()), id, lease, dispute, nameHash, caller, now, ttl)
    {
      ghost var was := Abs();
      Opened();
      assert id !in was.byId;
      I.IssueInv(was, id, lease, dispute, nameHash, caller, now, ttl);
      hide I.Inv, I.Inverse, I.Sound, Valid, Values, Linked, I.Put, I.ExpiryFor, I.Issuable;
      var party := I.Issuable(lease, dispute, nameHash, caller);
      if party.Failure? {
        Closed(was);
        return Failure(party.error);
      }
      Agreed(lease, dispute, nameHash, caller);
      var deadline := dispute.value.selectionDeadline;
      var expiresAt := I.ExpiryFor(now, ttl, deadline);
      if expiresAt <= I.Sec(now) {
        Closed(was);
        return Failure(I.SelectionWindowClosed);
      }
      var value :=
        I.Invite(id, lease.address, nameHash.value, lease.landlord, lease.tenant, deadline, party.value, expiresAt,
        None, None);
      Replace(value);
      Closed(I.Put(was, value));
      return Success(I.Signed(id, lease.address, nameHash.value, expiresAt));
    }

    static lemma Agreed(lease: I.Lease, dispute: Option<I.Dispute>, nameHash: Option<I.Hash>, caller: Address)
      requires I.Issuable(lease, dispute, nameHash, caller).Success?
      ensures dispute.Some? && nameHash.Some?
    {
    }

    /** A new record takes the place of the one its lease had. */
    method Replace(value: I.Invite)
      modifies this
      ensures I.Store(Values(byId), idByLease) == I.Put(old(I.Store(Values(byId), idByLease)), value)
    {
      ghost var was := I.Store(Values(byId), idByLease);
      var record := new Record(value);
      if value.lease in idByLease {
        byId := byId - {idByLease[value.lease]};
      }
      byId := byId[value.id := record];
      idByLease := idByLease[value.lease := value.id];
      assert Values(byId) == I.Put(was, value).byId;
    }

    method Resolve(token: I.Token, now: Millis) returns (r: Result<Record, I.Error>)
      ensures match I.Resolve(Abs(), token, now)
              case Failure(why) => r == Failure(why)
              case Success(i) => r.Success? && token.id in byId && r.value == byId[token.id] && r.value.Value() == i
    {
      if token.Forged? {
        return Failure(I.InviteInvalid);
      }
      if token.expiresAt * 1_000 <= now {
        return Failure(I.InviteExpired);
      }
      if token.id !in byId {
        return Failure(I.InviteInvalid);
      }
      var invite := byId[token.id];
      assert Abs().byId[token.id] == invite.Value();
      if invite.lease != token.lease || invite.nameHash != token.nameHash {
        return Failure(I.InviteInvalid);
      }
      if invite.expiresAt * 1_000 <= now {
        return Failure(I.InviteExpired);
      }
      return Success(invite);
    }

    method Claim(token: I.Token, wallet: Address, now: Millis) returns (r: Result<I.Invite, I.Error>)
      requires Valid()
      modifies this, byId.Values
      ensures Valid() && (Abs(), r) == I.Claim(I.Sweep(old(Abs()), now), token, wallet, now)
    {
      Sweep(now);
      ghost var was := Abs();
      Opened();
      I.ClaimInv(was, token, wallet, now);
      var resolved := Resolve(token, now);
      hide I.Inv, I.Inverse, I.Sound, Valid, Values, Linked, I.Resolve;
      if resolved.Failure? {
        Closed(was);
        return Failure(resolved.error);
      }
      var invite := resolved.value;
      if invite.wallet.Some? {
        Closed(was);
        return if invite.wallet == Some(wallet) then Success(invite.Value()) else Failure(I.AlreadyClaimed);
      }
      if wallet == invite.landlord || wallet == invite.tenant {
        Closed(was);
        return Failure(I.WalletIsParty);
      }
      Bind(invite, wallet, I.Sec(now));
      Closed(I.Claim(was, token, wallet, now).0);
      return Success(invite.Value());
    }

    /** The first claim of a record. */
    method Bind(invite: Record, wallet: Address, at: I.Seconds)
      requires Linked(byId, idByLease) && invite.id in byId && byId[invite.id] == invite
      modifies invite
      ensures invite.Value() == old(invite.Value()).(wallet := Some(wallet), claimedAt := Some(at))
      ensures Values(byId) == old(Values(byId))[invite.id := invite.Value()]
    {
      ghost var was := Values(byId);
      assert forall i :: i in byId ==> was[i] == byId[i].Value() && byId[i].id == i;
      invite.wallet, invite.claimedAt := Some(wallet), Some(at);
      assert forall i :: i in byId && i != invite.id ==> byId[i] != invite;
      assert Values(byId) == was[invite.id := invite.Value()];
    }
  }
}
