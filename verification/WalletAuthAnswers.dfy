/** What a login is answered, exactly, in every run with fresh nonces, and what becomes of the challenge. */
module WalletAuthAnswers {
  import opened Basics
  import opened Tables
  import opened WalletAuth
  import opened WalletAuthRuns

  /** Of the events with fresh nonces, only one issues a given nonce. */
  lemma {:induction false} IssuedOnce(es: seq<Event>, i: nat, j: nat)
    requires Fresh(es) && i < |es| && j < |es| && es[i].Ask? && es[j].Ask? && es[i].nonce == es[j].nonce
    ensures i == j
  {
    var n := |es| - 1;
    if i < n && j < n {
      IssuedOnce(es[..n], i, j);
    } else if i != j {
      IssuedBefore(es, if i < n then i else j);
    }
  }

  lemma IssuedBefore(es: seq<Event>, i: nat)
    requires i < |es| - 1 && es[i].Ask?
    ensures es[i].nonce in Issued(es[..|es| - 1])
  {
    assert es[..|es| - 1][i] == es[i];
  }

  /** A pending challenge is the one issued under its nonce. */
  lemma PendingIs(c: Config, es: seq<Event>, i: nat)
    requires Fresh(es) && i < |es| && es[i].Ask? && es[i].nonce in Run(c, es).at
    ensures IssuedBy(c, es[i], es[i].nonce, Run(c, es).at[es[i].nonce])
  {
    var n := es[i].nonce;
    PendingWasAsked(c, es, n);
    var j :| 0 <= j < |es| && IssuedBy(c, es[j], n, Run(c, es).at[n]);
    IssuedOnce(es, i, j);
  }

  /** A login with the nonce that event `i` issued: what it is answered depends only on whether the challenge is
      pending, on the wallet, the time and the signature, and not on the bad signatures before it. */
  lemma LoginExactly(c: Config, es: seq<Event>, i: nat, e: Event)
    requires Fresh(es) && i < |es| && es[i].Ask? && e.Login? && e.nonce == es[i].nonce
    ensures var s, ask := Run(c, es), es[i];
      var ours := e.nonce in s.at && e.wallet == ask.wallet;
      var verdict := Verify(s, c, e.wallet, e.nonce, e.now, e.signs).1;
      && (verdict == LoggedIn <==> ours && e.now < ask.issued + c.ttl && e.signs)
      && (verdict == BadSignature <==> ours && e.now < ask.issued + c.ttl && !e.signs)
      && (verdict == Expired <==> ours && e.now >= ask.issued + c.ttl)
      && (verdict == NoChallenge <==> !ours)
  {
    if e.nonce in Run(c, es).at {
      PendingIs(c, es, i);
    }
  }

  /** A nonce that was never issued logs nobody in. */
  lemma NeverIssued(c: Config, es: seq<Event>, e: Event)
    requires Fresh(es) && e.Login? && e.nonce !in Issued(es)
    ensures Verify(Run(c, es), c, e.wallet, e.nonce, e.now, e.signs).1 == NoChallenge
  {
    RunStanding(c, es, e.nonce);
  }

  /** A challenge is over after a login with it, an attempt that comes too late, or one bad signature too many, and
      otherwise stays pending; an answer that there is none changes nothing. Other challenges stay as they are. */
  lemma LoginLeaves(c: Config, es: seq<Event>, e: Event, m: Nonce)
    requires Fresh(es) && e.Login?
    ensures var s, t := Run(c, es), Run(c, es + [e]);
      var verdict := Verify(s, c, e.wallet, e.nonce, e.now, e.signs).1;
      && (verdict == NoChallenge ==> t == s)
      && (verdict == LoggedIn || verdict == Expired ==> e.nonce !in t.at)
      && (verdict == BadSignature ==>
            (e.nonce in t.at <==> Tally(c, es, e.nonce, BadSignature) + 1 < c.maxAttempts))
      && (m != e.nonce ==> (m in t.at <==> m in s.at) && (m in t.at ==> t.at[m] == s.at[m]))
  {
    var s := Run(c, es);
    OneMore(c, es, e);
    RunStanding(c, es, e.nonce);
    hide Run;
  }

  /** A challenge is pending as soon as it is issued, with no attempt counted against it, and it expires when the
      configuration says. */
  lemma IssuedIsPending(c: Config, es: seq<Event>, e: Event)
    requires e.Ask?
    ensures var t := Run(c, es + [e]);
      e.nonce in t.at && t.at[e.nonce].attempts == 0 && IssuedBy(c, e, e.nonce, t.at[e.nonce])
  {
    OneMore(c, es, e);
    hide MakeRoom, Run;
  }

  // ---- what a new challenge evicts ----

  /** The unexpired challenges that the first loop leaves: the newest, one fewer than the store may hold. */
  function Recent(s: Store, c: Config, now: Millis): seq<Nonce> {
    Last(Restrict(s.keys, set n | n in s.at && s.at[n].expiresAt > now), Max(c.maxPending, 1) - 1)
  }

  /** Of those, a wallet's own that the second loop leaves it: the oldest, one fewer than its share. */
  function Spared(s: Store, c: Config, w: Address, now: Millis): seq<Nonce> {
    First(Restrict(Recent(s, c, now), set n | n in s.at && s.at[n].wallet == w), Max(c.maxPendingPerWallet, 1) - 1)
  }

  /** The challenges pending after one is issued: itself, and those among the newest in the store that are another
      wallet's, or among the oldest of this one's. They are unchanged. */
  lemma AskLeaves(c: Config, es: seq<Event>, ask: Event, m: Nonce)
    requires ask.Ask? && m != ask.nonce
    ensures m in Recent(Run(c, es), c, ask.now) ==> m in Run(c, es).at
    ensures var s, t := Run(c, es), Run(c, es + [ask]);
      && (m in t.at <==>
            m in Recent(s, c, ask.now) && (s.at[m].wallet == ask.wallet ==> m in Spared(s, c, ask.wallet, ask.now)))
      && (m in t.at ==> m in s.at && t.at[m] == s.at[m])
  {
    OneMore(c, es, ask);
    hide Run;
    if m in Recent(Run(c, es), c, ask.now) {
      RecentIn(Run(c, es), c, ask.now, m);
    }
    hide MakeRoom, Recent, Spared;
    RoomLeaves(Run(c, es), c, ask.wallet, ask.now, m);
  }

  lemma RecentIn(s: Store, c: Config, now: Millis, m: Nonce)
    requires s.Good() && m in Recent(s, c, now)
    ensures m in s.at
  {
    RestrictIn(s.keys, set n | n in s.at && s.at[n].expiresAt > now);
  }

  /** What the first loop leaves of the unexpired challenges. */
  lemma OldestLeave(s: Store, c: Config, now: Millis)
    requires s.Good()
    ensures Sweep(s, now).Good()
    ensures var b := EvictOldest(Sweep(s, now), c.maxPending);
      b.keys == Recent(s, c, now) && forall n :: n in b.at ==> n in s.at && b.at[n] == s.at[n]
  {
    var a := Sweep(s, now);
    Swept(s, now);
    assert a.keys == Restrict(s.keys, Unexpired(s.at, now));
    assert Unexpired(s.at, now) == set n | n in s.at && s.at[n].expiresAt > now;
    hide *;
    OldestGone(a, c.maxPending);
    PartShrinks(EvictOldest(a, c.maxPending), a, 0);
    RecentIs(s, c, now);
  }

  lemma RecentIs(s: Store, c: Config, now: Millis)
    ensures Recent(s, c, now) == Last(Restrict(s.keys, Unexpired(s.at, now)), Max(c.maxPending, 1) - 1)
  {
    assert Unexpired(s.at, now) == set n | n in s.at && s.at[n].expiresAt > now;
  }

  lemma NewestLeave(b: Store, w: Address, cap: nat, m: Nonce)
    requires b.Good()
    ensures var t := EvictNewest(b, w, cap);
      && (m in t.at <==> m in b.at && (b.at[m].wallet == w ==> m in First(Mine(b, w), Max(cap, 1) - 1)))
      && (m in t.at ==> t.at[m] == b.at[m])
  {
    var t := EvictNewest(b, w, cap);
    NewestGone(b, w, cap);
    hide EvictNewest, Mine, First;
    PartShrinks(t, b, w);
    hide Part;
    if m in b.at {
      var v := b.at[m].wallet;
      MineIn(t, v);
      MineIn(b, v);
    }
  }

  lemma RoomLeaves(s: Store, c: Config, w: Address, now: Millis, m: Nonce)
    requires s.Good() && (m in Recent(s, c, now) ==> m in s.at)
    ensures var t := MakeRoom(s, c, w, now);
      && (m in t.at <==>
            m in Recent(s, c, now) && (s.at[m].wallet == w ==> m in Spared(s, c, w, now)))
      && (m in t.at ==> m in s.at && t.at[m] == s.at[m])
  {
    OldestLeave(s, c, now);
    var b := EvictOldest(Sweep(s, now), c.maxPending);
    assert MakeRoom(s, c, w, now) == EvictNewest(b, w, c.maxPendingPerWallet);
    hide EvictOldest, EvictNewest, Sweep, MakeRoom;
    NewestLeave(b, w, c.maxPendingPerWallet, m);
    RestrictSame(b.keys, OfWallet(b.at, w), set n | n in s.at && s.at[n].wallet == w);
    assert Mine(b, w) == Restrict(Recent(s, c, now), set n | n in s.at && s.at[n].wallet == w);
    hide Restrict, Recent;
  }

  // ---- a user who gets the signature wrong at first ----

  /** Logins with one nonce that all fail to sign. */
  predicate WrongAttempts(attempts: seq<Event>, w: Address, n: Nonce, before: Millis) {
    forall k :: 0 <= k < |attempts| ==>
      attempts[k].Login? && attempts[k].wallet == w && attempts[k].nonce == n && attempts[k].now < before
      && !attempts[k].signs
  }

  lemma OneMore(c: Config, es: seq<Event>, e: Event)
    ensures Run(c, es + [e]) == Step(Run(c, es), c, e)
  {
    assert (es + [e])[..|es|] == es;
    hide Step;
  }

  /** A wrong signature is counted; one too many drops the challenge. */
  lemma WrongStep(s: Store, c: Config, e: Event, ask: Event)
    requires s.Good() && e.nonce in s.at && IssuedBy(c, ask, e.nonce, s.at[e.nonce])
    requires WrongAttempts([e], ask.wallet, ask.nonce, ask.issued + c.ttl)
    ensures var t, tried := Step(s, c, e), s.at[e.nonce].attempts + 1;
      if tried < c.maxAttempts then e.nonce in t.at && t.at[e.nonce] == s.at[e.nonce].(attempts := tried)
      else e.nonce !in t.at
  {
    assert [e][0] == e;
  }

  lemma LastAttempt(attempts: seq<Event>, w: Address, n: Nonce, before: Millis)
    requires attempts != [] && WrongAttempts(attempts, w, n, before)
    ensures WrongAttempts([attempts[|attempts| - 1]], w, n, before)
    ensures WrongAttempts(attempts[..|attempts| - 1], w, n, before) && attempts[|attempts| - 1].nonce == n
  {
  }

  lemma {:induction false} StillPending(c: Config, es: seq<Event>, ask: Event, attempts: seq<Event>)
    requires ask.Ask? && WrongAttempts(attempts, ask.wallet, ask.nonce, ask.issued + c.ttl)
    requires |attempts| <= Max(c.maxAttempts, 1)
    ensures var t := Run(c, es + [ask] + attempts);
      if |attempts| < Max(c.maxAttempts, 1)
      then ask.nonce in t.at && t.at[ask.nonce].attempts == |attempts| && IssuedBy(c, ask, ask.nonce, t.at[ask.nonce])
      else ask.nonce !in t.at
  {
    hide Run, Step, WrongAttempts;
    if attempts == [] {
      IssuedIsPending(c, es, ask);
      assert es + [ask] + attempts == es + [ask];
    } else {
      var k := |attempts| - 1;
      var run := es + [ask] + attempts[..k];
      LastAttempt(attempts, ask.wallet, ask.nonce, ask.issued + c.ttl);
      StillPending(c, es, ask, attempts[..k]);
      assert es + [ask] + attempts == run + [attempts[k]];
      OneMore(c, run, attempts[k]);
      WrongStep(Run(c, run), c, attempts[k], ask);
    }
  }

  /** Fewer wrong signatures than the cap, and then a right one before the challenge expires, log the wallet in; with
      as many as the cap the challenge is gone. */
  lemma LoginAfterWrongOnes(c: Config, es: seq<Event>, ask: Event, attempts: seq<Event>, now: Millis)
    requires ask.Ask? && WrongAttempts(attempts, ask.wallet, ask.nonce, ask.issued + c.ttl)
    requires |attempts| <= Max(c.maxAttempts, 1) && now < ask.issued + c.ttl
    ensures Verify(Run(c, es + [ask] + attempts), c, ask.wallet, ask.nonce, now, true).1
            == if |attempts| < Max(c.maxAttempts, 1) then LoggedIn else NoChallenge
  {
    StillPending(c, es, ask, attempts);
    hide Run;
  }
}
