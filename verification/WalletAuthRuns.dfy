/** What the challenge store guarantees over every run of challenges and logins: the size caps, one login and
    a capped number of bad signatures per challenge, and that a flood cannot push out a wallet's oldest. */
module WalletAuthRuns {
  import opened Basics
  import opened Tables
  import opened WalletAuth

  datatype Event =
    | Ask(wallet: Address, nonce: Nonce, now: Millis, issued: Millis)
    | Login(wallet: Address, nonce: Nonce, now: Millis, signs: bool)

  ghost function Step(s: Store, c: Config, e: Event): (t: Store)
    requires s.Good()
    ensures t.Good()
  {
    match e
    case Ask(w, n, now, issued) => Challenge(s, c, w, n, now, issued)
    case Login(w, n, now, signs) =>
      OnlyGood(s, s.at.Keys - {n});
      Verify(s, c, w, n, now, signs).0
  }

  ghost function Run(c: Config, es: seq<Event>): (s: Store)
    ensures s.Good()
  {
    if es == [] then EMPTY else Step(Run(c, es[..|es| - 1]), c, es[|es| - 1])
  }

  function Issued(es: seq<Event>): set<Nonce> {
    set e | e in es && e.Ask? :: e.nonce
  }

  /** Every challenge has a nonce of its own. */
  ghost predicate Fresh(es: seq<Event>) {
    es == [] || (Fresh(es[..|es| - 1]) && (es[|es| - 1].Ask? ==> es[|es| - 1].nonce !in Issued(es[..|es| - 1])))
  }

  ghost predicate Answers(s: Store, c: Config, e: Event, n: Nonce, v: Verdict) {
    e.Login? && e.nonce == n && Verify(s, c, e.wallet, e.nonce, e.now, e.signs).1 == v
  }

  /** How often a login with nonce `n` came to verdict `v`. */
  ghost function Tally(c: Config, es: seq<Event>, n: Nonce, v: Verdict): nat {
    if es == [] then 0
    else Tally(c, es[..|es| - 1], n, v) + if Answers(Run(c, es[..|es| - 1]), c, es[|es| - 1], n, v) then 1 else 0
  }

  lemma IssuedLast(es: seq<Event>)
    requires es != []
    ensures Issued(es) == Issued(es[..|es| - 1]) + if es[|es| - 1].Ask? then {es[|es| - 1].nonce} else {}
  {
    assert es == es[..|es| - 1] + [es[|es| - 1]];
  }

  /** Where nonce `n` stands after `bad` bad signatures and `logins` logins. */
  ghost predicate Standing(s: Store, c: Config, n: Nonce, issued: bool, bad: nat, logins: nat) {
    && (n in s.at ==>
         issued && logins == 0 && bad == s.at[n].attempts < Max(c.maxAttempts, 1) && s.at[n].message.nonce == n
         && s.at[n].message.wallet == s.at[n].wallet)
    && (!issued ==> bad == 0 && logins == 0)
    && logins <= 1 && bad <= Max(c.maxAttempts, 1)
  }

  lemma AskStanding(s: Store, c: Config, e: Event, n: Nonce, issued: bool, bad: nat, logins: nat)
    requires s.Good() && e.Ask? && Standing(s, c, n, issued, bad, logins) && (e.nonce == n ==> !issued)
    ensures Standing(Step(s, c, e), c, n, issued || e.nonce == n, bad, logins)
  {
    RoomMade(s, c, e.wallet, e.now);
  }

  lemma LoginStanding(s: Store, c: Config, e: Event, n: Nonce, issued: bool, bad: nat, logins: nat)
    requires s.Good() && e.Login? && Standing(s, c, n, issued, bad, logins)
    ensures Standing(Step(s, c, e), c, n, issued,
                     bad + (if Answers(s, c, e, n, BadSignature) then 1 else 0),
                     logins + (if Answers(s, c, e, n, LoggedIn) then 1 else 0))
  {
  }

  lemma {:induction false} RunStanding(c: Config, es: seq<Event>, n: Nonce)
    requires Fresh(es)
    ensures Standing(Run(c, es), c, n, n in Issued(es), Tally(c, es, n, BadSignature), Tally(c, es, n, LoggedIn))
  {
    if es != [] {
      var earlier, e := es[..|es| - 1], es[|es| - 1];
      RunStanding(c, earlier, n);
      IssuedLast(es);
      var s, issued := Run(c, earlier), n in Issued(earlier);
      var bad, logins := Tally(c, earlier, n, BadSignature), Tally(c, earlier, n, LoggedIn);
      if e.Ask? {
        AskStanding(s, c, e, n, issued, bad, logins);
      } else {
        LoginStanding(s, c, e, n, issued, bad, logins);
      }
    }
  }

  /** A challenge logs its holder in at most once, and takes at most `maxAttempts` bad signatures (one, if
      the configuration says none); after a login, or the last bad signature, it is gone for good. */
  lemma OneLoginFewAttempts(c: Config, es: seq<Event>, n: Nonce)
    requires Fresh(es)
    ensures Tally(c, es, n, LoggedIn) <= 1 && Tally(c, es, n, BadSignature) <= Max(c.maxAttempts, 1)
    ensures Tally(c, es, n, LoggedIn) == 1 || Tally(c, es, n, BadSignature) == Max(c.maxAttempts, 1) ==>
      n !in Run(c, es).at
  {
    RunStanding(c, es, n);
  }

  /** `p` is the challenge that `e` issued under nonce `n`. */
  predicate IssuedBy(c: Config, e: Event, n: Nonce, p: Pending) {
    && e.Ask? && e.nonce == n && e.wallet == p.wallet && p.expiresAt == e.issued + c.ttl
    && p.message == Message(e.wallet, n, e.issued, e.issued + c.ttl)
  }

  lemma PendingStep(s: Store, c: Config, e: Event, n: Nonce)
    requires s.Good() && n in Step(s, c, e).at
    ensures var p := Step(s, c, e).at[n];
      || IssuedBy(c, e, n, p)
      || (n in s.at && s.at[n] == p.(attempts := s.at[n].attempts))
  {
    if e.Ask? {
      RoomMade(s, c, e.wallet, e.now);
      hide MakeRoom;
    }
  }

  lemma {:induction false} PendingWasAsked(c: Config, es: seq<Event>, n: Nonce)
    requires n in Run(c, es).at
    ensures exists i :: 0 <= i < |es| && IssuedBy(c, es[i], n, Run(c, es).at[n])
  {
    var earlier, e := es[..|es| - 1], es[|es| - 1];
    var p := Run(c, es).at[n];
    PendingStep(Run(c, earlier), c, e, n);
    hide Step;
    if !IssuedBy(c, e, n, p) {
      PendingWasAsked(c, earlier, n);
      var q := Run(c, earlier).at[n];
      assert q == p.(attempts := q.attempts);
      hide Run;
      var i :| 0 <= i < |earlier| && IssuedBy(c, earlier[i], n, q);
      assert es[i] == earlier[i] && IssuedBy(c, es[i], n, p);
    }
  }

  /** Whoever logs in signed, before it expired, the very message issued to that wallet under that nonce. */
  lemma LoginWasChallenged(c: Config, es: seq<Event>, e: Event)
    requires e.Login? && Answers(Run(c, es), c, e, e.nonce, LoggedIn)
    ensures e.signs && e.nonce in Run(c, es).at
    ensures exists i :: 0 <= i < |es| && IssuedBy(c, es[i], e.nonce, Run(c, es).at[e.nonce])
                        && es[i].wallet == e.wallet && e.now < es[i].issued + c.ttl
  {
    PendingWasAsked(c, es, e.nonce);
  }

  // ---- the caps ----

  /** The store and every wallet's share of it stay within their caps (or one, if a cap is zero). */
  lemma {:induction false} CapsHold(c: Config, es: seq<Event>)
    requires Fresh(es)
    ensures Capped(Run(c, es), c)
  {
    if es == [] {
      assert forall w :: |Mine(EMPTY, w)| == 0;
    } else {
      var earlier := es[..|es| - 1];
      CapsHold(c, earlier);
      match es[|es| - 1]
      case Ask(w, n, now, issued) =>
        RunStanding(c, earlier, n);
        ChallengeCapped(Run(c, earlier), c, w, n, now, issued);
      case Login(w, n, now, signs) => VerifyCapped(Run(c, earlier), c, w, n, now, signs);
    }
  }

  // ---- a flood of later challenges ----

  lemma RestrictAround<K(!new)>(a: seq<K>, n: K, b: seq<K>, s: set<K>)
    requires n in s
    ensures Restrict(a + ([n] + b), s) == Restrict(a, s) + ([n] + Restrict(b, s))
  {
    RestrictConcat(a, [n] + b, s);
    RestrictConcat([n], b, s);
    assert [n][..0] == [];
  }

  lemma RestrictFirst<K(!new)>(keys: seq<K>, s: set<K>, k: nat, n: K)
    requires n in First(keys, k) && n in s
    ensures n in First(Restrict(keys, s), k)
  {
    hide Restrict;
    var i :| 0 <= i < |First(keys, k)| && First(keys, k)[i] == n;
    assert keys == keys[..i] + ([n] + keys[i + 1..]);
    RestrictAround(keys[..i], n, keys[i + 1..], s);
    RestrictIn(keys[..i], s);
    assert Restrict(keys, s)[|Restrict(keys[..i], s)|] == n;
  }

  /** Nonce `n` is one of the oldest that its wallet's share always leaves in place. */
  ghost predicate Safe(s: Store, c: Config, n: Nonce) {
    n in s.at && c.maxPendingPerWallet > 0 && n in First(Mine(s, s.at[n].wallet), c.maxPendingPerWallet - 1)
  }

  /** The store has room, so nothing is evicted for want of it, and `n` has not expired. */
  ghost predicate Calm(s: Store, c: Config, e: Event, n: Nonce) {
    match e
    case Ask(_, m, now, _) => m !in s.at && |Sweep(s, now).keys| < c.maxPending && n in s.at && now < s.at[n].expiresAt
    case Login(_, m, _, _) => m != n
  }

  lemma OnlySafe(s: Store, c: Config, keep: set<Nonce>, n: Nonce)
    requires s.Good() && Safe(s, c, n) && n in keep
    ensures Safe(s.Only(keep), c, n) && s.Only(keep).at[n] == s.at[n]
  {
    MineOnly(s, keep, s.at[n].wallet);
    RestrictFirst(Mine(s, s.at[n].wallet), keep, c.maxPendingPerWallet - 1, n);
  }

  lemma EvictNewestSafe(s: Store, c: Config, w: Address, n: Nonce)
    requires s.Good() && Safe(s, c, n)
    ensures var t := EvictNewest(s, w, c.maxPendingPerWallet);
      Safe(t, c, n) && t.at[n] == s.at[n]
  {
    var t := EvictNewest(s, w, c.maxPendingPerWallet);
    var v := s.at[n].wallet;
    NewestGone(s, w, c.maxPendingPerWallet);
    PartShrinks(t, s, v);
    assert n in Mine(t, v);
    MineIn(t, v);
  }

  lemma AskSafe(s: Store, c: Config, e: Event, n: Nonce)
    requires s.Good() && e.Ask? && Safe(s, c, n) && Calm(s, c, e, n)
    ensures Safe(Step(s, c, e), c, n) && Step(s, c, e).at[n] == s.at[n]
  {
    var a := Sweep(s, e.now);
    OnlyGood(s, Unexpired(s.at, e.now));
    OnlySafe(s, c, Unexpired(s.at, e.now), n);
    OldestGone(a, c.maxPending);
    EvictNewestSafe(a, c, e.wallet, n);
    RoomMade(s, c, e.wallet, e.now);
    PutSafe(MakeRoom(s, c, e.wallet, e.now), c, n, e.nonce, Entry(c, e.wallet, e.nonce, e.issued));
  }

  lemma PutSafe(s: Store, c: Config, n: Nonce, m: Nonce, p: Pending)
    requires s.Good() && Safe(s, c, n) && m !in s.at
    ensures Safe(s.Put(m, p), c, n) && s.Put(m, p).at[n] == s.at[n]
  {
    PutLists(s, m, p, s.at[n].wallet);
    var mine, k := Mine(s, s.at[n].wallet), c.maxPendingPerWallet - 1;
    var i :| 0 <= i < |First(mine, k)| && First(mine, k)[i] == n;
    assert First(Mine(s.Put(m, p), s.at[n].wallet), k)[i] == n;
  }

  /** A login with another nonce drops it, or counts an attempt against it. */
  lemma LoginSafe(s: Store, c: Config, e: Event, n: Nonce)
    requires s.Good() && e.Login? && Safe(s, c, n) && Calm(s, c, e, n)
    ensures Safe(Step(s, c, e), c, n) && Step(s, c, e).at[n] == s.at[n]
  {
    if e.nonce in s.at {
      LoginSteps(s, c, e);
      CountedSafe(s, c, e.nonce, n);
      hide Step, Safe;
      OnlySafe(s, c, s.at.Keys - {e.nonce}, n);
    }
  }

  lemma LoginSteps(s: Store, c: Config, e: Event)
    requires s.Good() && e.Login? && e.nonce in s.at
    ensures var t := Step(s, c, e); t == s || t == s.Only(s.at.Keys - {e.nonce}) || t == Counted(s, e.nonce)
  {
  }

  function Counted(s: Store, m: Nonce): Store
    requires m in s.at
  {
    s.(at := s.at[m := s.at[m].(attempts := s.at[m].attempts + 1)])
  }

  lemma CountedSafe(s: Store, c: Config, m: Nonce, n: Nonce)
    requires s.Good() && Safe(s, c, n) && m in s.at && m != n
    ensures Safe(Counted(s, m), c, n) && Counted(s, m).at[n] == s.at[n]
  {
    var w := s.at[n].wallet;
    RestrictSame(s.keys, OfWallet(Counted(s, m).at, w), OfWallet(s.at, w));
    hide Restrict;
  }

  ghost predicate CalmRun(s: Store, c: Config, es: seq<Event>, n: Nonce)
    requires s.Good()
  {
    es == [] || (CalmRun(s, c, es[..|es| - 1], n) && Calm(RunFrom(s, c, es[..|es| - 1]), c, es[|es| - 1], n))
  }

  ghost function RunFrom(s: Store, c: Config, es: seq<Event>): (t: Store)
    requires s.Good()
    ensures t.Good()
  {
    if es == [] then s else Step(RunFrom(s, c, es[..|es| - 1]), c, es[|es| - 1])
  }

  /** While the store is not full, any number of later challenges, for this wallet or others, and of logins
      with other nonces, leaves a wallet's oldest `maxPendingPerWallet - 1` unexpired challenges in place. */
  lemma {:induction false} OldestSurvive(s: Store, c: Config, es: seq<Event>, n: Nonce)
    requires s.Good() && Safe(s, c, n) && CalmRun(s, c, es, n)
    ensures Safe(RunFrom(s, c, es), c, n) && RunFrom(s, c, es).at[n] == s.at[n]
  {
    if es != [] {
      var t, e := RunFrom(s, c, es[..|es| - 1]), es[|es| - 1];
      OldestSurvive(s, c, es[..|es| - 1], n);
      if e.Ask? {
        AskSafe(t, c, e, n);
      } else {
        LoginSafe(t, c, e, n);
      }
    }
  }
}
