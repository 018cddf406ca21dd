/** When an invitation's token opens it, who can claim it, and why a request for one is refused: exactly, whatever
    happened in between. */
module InviteAnswers {
  import opened Basics
  import opened Invites

  /** A party asks for an invite, in mediation, before an appraiser is bound, for the name agreed on, while the
      selection window is open. */
  predicate GoesOut(e: Event) {
    && e.IssueCall? && (e.caller == e.lease.landlord || e.caller == e.lease.tenant)
    && e.lease.inMediation && e.dispute.Some? && e.dispute.value.appraiser == None
    && e.nameHash.Some? && e.nameHash == e.dispute.value.agreedNameHash
    && Sec(e.now) < e.dispute.value.selectionDeadline && e.ttl > 0
  }

  /** An invite for lease `l` goes out. */
  predicate GoesOutFor(e: Event, l: Address) {
    GoesOut(e) && e.lease.address == l
  }

  predicate Reissued(es: seq<Event>, l: Address) {
    exists k :: 0 <= k < |es| && GoesOutFor(es[k], l)
  }

  function Moment(e: Event): Millis {
    match e
    case SweepCall(now) => now
    case IssueCall(_, _, _, _, _, now, _) => now
    case ClaimCall(_, _, now) => now
  }

  predicate AllBy(es: seq<Event>, now: Millis) {
    forall k :: 0 <= k < |es| ==> Moment(es[k]) <= now
  }

  /** What a record says for good. */
  predicate SameInvite(i: Invite, j: Invite) {
    j == i.(wallet := j.wallet, claimedAt := j.claimedAt)
  }

  // ---- an invite stays until it expires or is replaced ----

  lemma GoesOutExactly(s: Store, e: Event)
    requires e.IssueCall?
    ensures GoesOut(e) <==> Issue(s, e.id, e.lease, e.dispute, e.nameHash, e.caller, e.now, e.ttl).1.Success?
  {
    IssuedExactly(s, e.id, e.lease, e.dispute, e.nameHash, e.caller, e.now, e.ttl);
  }

  /** One step: an unexpired invite goes exactly when another for its lease goes out. */
  lemma StepLeaves(s: Store, e: Event, i: Id, now: Millis)
    requires Inv(s) && i in s.byId && now < s.byId[i].expiresAt * 1_000 && Moment(e) <= now
    requires e.IssueCall? ==> e.id != i
    ensures var t := Step(s, e);
      if GoesOutFor(e, s.byId[i].lease) then i !in t.byId
      else i in t.byId && SameInvite(s.byId[i], t.byId[i])
  {
    if e.IssueCall? {
      GoesOutExactly(s, e);
      hide GoesOut;
    }
  }

  lemma {:induction false} RunLeaves(s: Store, es: seq<Event>, used: set<Id>, i: Id, now: Millis)
    requires Inv(s) && s.byId.Keys <= used && Fresh(es, used) && AllBy(es, now)
    requires i in s.byId && now < s.byId[i].expiresAt * 1_000
    ensures var t := RunFrom(s, es);
      if Reissued(es, s.byId[i].lease) then i !in t.byId else i in t.byId && SameInvite(s.byId[i], t.byId[i])
  {
    if es != [] {
      var earlier, e := es[..|es| - 1], es[|es| - 1];
      var t := RunFrom(s, earlier);
      RunLeaves(s, earlier, used, i, now);
      RunInv(s, earlier, used);
      ReissuedLast(es, s.byId[i].lease);
      hide Inv, Step, GoesOutFor, Reissued;
      if Reissued(earlier, s.byId[i].lease) {
        if i in Step(t, e).byId {
          StepKeeps(t, e, i);
        }
      } else {
        StepLeaves(t, e, i, now);
      }
    }
  }

  lemma ReissuedLast(es: seq<Event>, l: Address)
    requires es != []
    ensures Reissued(es, l) <==>
            Reissued(es[..|es| - 1], l) || GoesOutFor(es[|es| - 1], l)
  {
    hide GoesOutFor;
    var n := |es| - 1;
    if Reissued(es, l) {
      var k :| 0 <= k < |es| && GoesOutFor(es[k], l);
      assert k < n ==> es[..n][k] == es[k];
    }
    if Reissued(es[..n], l) {
      var k :| 0 <= k < n && GoesOutFor(es[..n][k], l);
      assert es[k] == es[..n][k];
    }
  }

  /** Whatever happens after it was issued, a token opens its invite exactly until that expires, unless another goes out
      for the same lease; what it opens is what was issued, but perhaps claimed. */
  lemma OpensExactly(s: Store, e: Event, es: seq<Event>, used: set<Id>, token: Token, now: Millis)
    requires Inv(s) && s.byId.Keys <= used && e.IssueCall? && e.id !in used && Fresh(es, used + {e.id})
    requires Issue(s, e.id, e.lease, e.dispute, e.nameHash, e.caller, e.now, e.ttl).1 == Success(token)
    requires AllBy(es, now)
    ensures token.Signed? && e.id in Step(s, e).byId && token.id == e.id && token.lease == e.lease.address
    ensures var i := Step(s, e).byId[e.id];
      i.wallet == None && i.lease == e.lease.address && i.landlord == e.lease.landlord && i.tenant == e.lease.tenant
    ensures var r, i := Resolve(RunFrom(Step(s, e), es), token, now), Step(s, e).byId[e.id];
      if token.expiresAt * 1_000 <= now then r == Failure(InviteExpired)
      else if Reissued(es, e.lease.address) then r == Failure(InviteInvalid)
      else r.Success? && SameInvite(i, r.value)
  {
    var t := Step(s, e);
    IssueInv(s, e.id, e.lease, e.dispute, e.nameHash, e.caller, e.now, e.ttl);
    if now < token.expiresAt * 1_000 {
      RunLeaves(t, es, used + {e.id}, e.id, now);
    }
  }

  // ---- claims ----

  /** What a claim is answered, and what it changes: a token that opens its invite binds the first wallet that is no
      party of the lease, answers that wallet again, and refuses every other; one that does not is refused for the
      reason it does not. */
  lemma ClaimedExactly(s: Store, token: Token, wallet: Address, now: Millis)
    ensures var r, opens := Claim(s, token, wallet, now), Resolve(s, token, now);
      if opens.Failure? then r == (s, Failure(opens.error))
      else
        var i := opens.value;
        && (r.1.Success? <==>
              i.wallet == Some(wallet) || (i.wallet == None && wallet != i.landlord && wallet != i.tenant))
        && (r.1 == Failure(AlreadyClaimed) <==> i.wallet.Some? && i.wallet != Some(wallet))
        && (r.1 == Failure(WalletIsParty) <==> i.wallet == None && (wallet == i.landlord || wallet == i.tenant))
        && (r.1.Success? ==>
              && r.1.value.wallet == Some(wallet) && SameInvite(i, r.1.value)
              && r.1.value.claimedAt == (if i.wallet.Some? then i.claimedAt else Some(now / 1_000))
              && token.Signed? && r.0 == s.(byId := s.byId[token.id := r.1.value]))
        && (r.1.Failure? ==> r.0 == s)
  {
    if Resolve(s, token, now).Success? {
      assert s.byId[token.id := s.byId[token.id]] == s.byId;
    }
  }

  /** A record's wallet changes only by a claim with its token, to the wallet that claims. */
  lemma OnlyClaimsBind(s: Store, e: Event, i: Id)
    requires i in Step(s, e).byId && (e.IssueCall? ==> e.id != i)
    ensures i in s.byId
    ensures Step(s, e).byId[i].wallet != s.byId[i].wallet ==>
      e.ClaimCall? && e.token.Signed? && e.token.id == i && Step(s, e).byId[i].wallet == Some(e.wallet)
  {
    StepKeeps(s, e, i);
  }

  // ---- refusals on the way out ----

  /** Why an invite does not go out: the first of these that fails. */
  lemma IssueRefusedExactly(s: Store, e: Event)
    requires e.IssueCall?
    ensures var r := Issue(s, e.id, e.lease, e.dispute, e.nameHash, e.caller, e.now, e.ttl);
      var party := e.caller == e.lease.landlord || e.caller == e.lease.tenant;
      var mediation := party && e.lease.inMediation && e.dispute.Some?;
      var unbound := mediation && e.dispute.value.appraiser == None;
      var agreed := unbound && e.dispute.value.agreedNameHash.Some?;
      && (r.1 == Failure(NotAParty) <==> !party)
      && (r.1 == Failure(LeaseNotInMediation) <==> party && !mediation)
      && (r.1 == Failure(AppraiserAlreadyBound) <==> mediation && !unbound)
      && (r.1 == Failure(NameNotAgreed) <==> unbound && !agreed)
      && (r.1 == Failure(InvalidName) <==> agreed && e.nameHash == None)
      && (r.1 == Failure(NameMismatch) <==>
            agreed && e.nameHash.Some? && e.nameHash != e.dispute.value.agreedNameHash)
      && (r.1.Failure? ==> r.0 == s)
  {
  }
}
