/** The two-phase spend limiter (backend/src/limits.ts): the ideal limiter, which keeps every reservation
    ever made, and what it guarantees at every instant. `RateLimiter.dfy` proves that the pruned lists
    the program keeps give the same answers. */
module Limits {
  import opened Basics
  import opened Sums

  const HOUR_MS := 3_600_000
  const DAY_MS := 86_400_000

  datatype Config = Config(maxPerWalletPerHour: nat, maxGlobalPerHour: nat, maxLamportsPerWalletPerDay: nat,
                           maxLamportsGlobalPerDay: nat)

  /** One reservation: open until it is committed or cancelled. */
  datatype Entry = Entry(wallet: Address, at: Millis, lamports: nat, open: bool, cancelled: bool)

  type History = seq<Entry>

  datatype Scope = Wallet | Global

  /** Whose spending is counted: one wallet's, or everyone's. */
  datatype Who = One(wallet: Address) | Everyone

  datatype Usage = Usage(walletLastHour: nat, walletLamportsLastDay: nat, globalLastHour: nat,
                   globalLamportsLastDay: nat)

  predicate Matches(e: Entry, who: Who) {
    !e.cancelled && (who == Everyone || e.wallet == who.wallet)
  }

  predicate InWindow(e: Entry, who: Who, from: int, to: int) {
    Matches(e, who) && from <= e.at <= to
  }

  /** Reservations made, and lamports booked, from `from` to `to`, both included. */
  function Count(h: History, who: Who, from: int, to: int): nat {
    if h == [] then 0
    else Count(h[..|h| - 1], who, from, to) + if InWindow(h[|h| - 1], who, from, to) then 1 else 0
  }

  function Booked(h: History, who: Who, from: int, to: int): nat {
    if h == [] then 0
    else Booked(h[..|h| - 1], who, from, to) + if InWindow(h[|h| - 1], who, from, to) then h[|h| - 1].lamports else 0
  }

  function Snapshot(h: History, w: Address, now: Millis): Usage {
    Usage(Count(h, One(w), now - HOUR_MS, now), Booked(h, One(w), now - DAY_MS, now),
          Count(h, Everyone, now - HOUR_MS, now), Booked(h, Everyone, now - DAY_MS, now))
  }

  /** The scope of the first cap a reservation would breach. */
  function Refused(h: History, c: Config, w: Address, worst: nat, now: Millis): Option<Scope> {
    var u := Snapshot(h, w, now);
    if u.walletLastHour >= c.maxPerWalletPerHour then Some(Wallet)
    else if u.globalLastHour >= c.maxGlobalPerHour then Some(Global)
    else if u.walletLamportsLastDay + worst > c.maxLamportsPerWalletPerDay then Some(Wallet)
    else if u.globalLamportsLastDay + worst > c.maxLamportsGlobalPerDay then Some(Global)
    else None
  }

  function Reserve(h: History, c: Config, w: Address, worst: nat, now: Millis): History {
    if Refused(h, c, w, worst, now).Some? then h else h + [Entry(w, now, worst, true, false)]
  }

  function Commit(h: History, i: nat, actual: nat): History
    requires i < |h|
  {
    if h[i].open then h[i := h[i].(lamports := actual, open := false)] else h
  }

  function Cancel(h: History, i: nat): History
    requires i < |h|
  {
    if h[i].open then h[i := h[i].(cancelled := true, open := false)] else h
  }

  // ---- runs ----

  datatype Event =
    | ReserveCall(wallet: Address, worst: nat, now: Millis)
    | CommitCall(entry: nat, actual: nat)
    | CancelCall(entry: nat)

  function Step(h: History, c: Config, e: Event): History {
    match e
    case ReserveCall(w, worst, now) => Reserve(h, c, w, worst, now)
    case CommitCall(i, actual) => if i < |h| then Commit(h, i, actual) else h
    case CancelCall(i) => if i < |h| then Cancel(h, i) else h
  }

  /** The clock does not run backwards, and no commit is larger than its reservation. */
  ghost predicate Orderly(h: History, e: Event) {
    match e
    case ReserveCall(_, _, now) => NotBefore(h, now)
    case CommitCall(i, actual) => i < |h| && h[i].open ==> actual <= h[i].lamports
    case CancelCall(_) => true
  }

  ghost predicate NotBefore(h: History, now: int) {
    forall i :: 0 <= i < |h| ==> h[i].at <= now
  }

  function Run(c: Config, es: seq<Event>): History {
    if es == [] then [] else Step(Run(c, es[..|es| - 1]), c, es[|es| - 1])
  }

  ghost predicate OrderlyRun(c: Config, es: seq<Event>) {
    es == [] || (OrderlyRun(c, es[..|es| - 1]) && Orderly(Run(c, es[..|es| - 1]), es[|es| - 1]))
  }

  // ---- the caps hold in every window, wherever it ends ----

  function LamportCap(c: Config, who: Who): nat {
    if who == Everyone then c.maxLamportsGlobalPerDay else c.maxLamportsPerWalletPerDay
  }

  function CountCap(c: Config, who: Who): nat {
    if who == Everyone then c.maxGlobalPerHour else c.maxPerWalletPerHour
  }

  /** Nobody is over a cap in the windows that end at `t`. */
  ghost predicate WithinCapsAt(h: History, c: Config, who: Who, t: int) {
    && Booked(h, who, t - DAY_MS, t) <= LamportCap(c, who)
    && Count(h, who, t - HOUR_MS, t) <= CountCap(c, who)
  }

  ghost predicate WithinCaps(h: History, c: Config) {
    forall who, t :: WithinCapsAt(h, c, who, t)
  }

  /** A narrower window holds no more. */
  lemma {:induction false} WindowShrinks(h: History, who: Who, from: int, to: int, from': int, to': int)
    requires forall i :: 0 <= i < |h| && from' <= h[i].at <= to' ==> from <= h[i].at <= to
    ensures Booked(h, who, from', to') <= Booked(h, who, from, to)
    ensures Count(h, who, from', to') <= Count(h, who, from, to)
  {
    if h != [] {
      WindowShrinks(h[..|h| - 1], who, from, to, from', to');
    }
  }

  /** Changing one reservation changes a window by that reservation's share. */
  lemma {:induction false} WindowUpdate(h: History, i: nat, e: Entry, who: Who, from: int, to: int)
    requires i < |h|
    ensures Booked(h[i := e], who, from, to) + (if InWindow(h[i], who, from, to) then h[i].lamports else 0)
         == Booked(h, who, from, to) + (if InWindow(e, who, from, to) then e.lamports else 0)
    ensures Count(h[i := e], who, from, to) + (if InWindow(h[i], who, from, to) then 1 else 0)
         == Count(h, who, from, to) + (if InWindow(e, who, from, to) then 1 else 0)
  {
    var n := |h| - 1;
    if i == n {
      assert h[i := e][..n] == h[..n];
    } else {
      assert h[i := e][..n] == h[..n][i := e];
      WindowUpdate(h[..n], i, e, who, from, to);
    }
  }

  lemma ReserveWithin(h: History, c: Config, w: Address, worst: nat, now: Millis, who: Who, t: int)
    requires WithinCaps(h, c) && NotBefore(h, now) && Refused(h, c, w, worst, now) == None
    ensures WithinCapsAt(h + [Entry(w, now, worst, true, false)], c, who, t)
  {
    var e := Entry(w, now, worst, true, false);
    WindowAppend(h, e, who, t - DAY_MS, t);
    WindowAppend(h, e, who, t - HOUR_MS, t);
    assert WithinCapsAt(h, c, who, t);
    if t >= now && Matches(e, who) {
      LaterWindows(h, who, now, t);
      RoomLeft(h, c, w, worst, now, who);
    }
    hide Booked, Count;
  }

  lemma LaterWindows(h: History, who: Who, now: int, t: int)
    requires NotBefore(h, now) && now <= t
    ensures Booked(h, who, t - DAY_MS, t) <= Booked(h, who, now - DAY_MS, now)
    ensures Count(h, who, t - HOUR_MS, t) <= Count(h, who, now - HOUR_MS, now)
  {
    WindowShrinks(h, who, now - DAY_MS, now, t - DAY_MS, t);
    WindowShrinks(h, who, now - HOUR_MS, now, t - HOUR_MS, t);
  }

  /** What the checks leave room for, in the windows that end now. */
  lemma RoomLeft(h: History, c: Config, w: Address, worst: nat, now: Millis, who: Who)
    requires Refused(h, c, w, worst, now) == None && (who == Everyone || who == One(w))
    ensures Booked(h, who, now - DAY_MS, now) + worst <= LamportCap(c, who)
    ensures Count(h, who, now - HOUR_MS, now) + 1 <= CountCap(c, who)
  {
    hide Booked, Count;
  }

  lemma WindowAppend(h: History, e: Entry, who: Who, from: int, to: int)
    ensures Booked(h + [e], who, from, to) == Booked(h, who, from, to) + if InWindow(e, who, from, to) then e.lamports
      else 0
    ensures Count(h + [e], who, from, to) == Count(h, who, from, to) + if InWindow(e, who, from, to) then 1 else 0
  {
    assert (h + [e])[..|h|] == h;
  }

  /** The limiter refuses exactly the reservations that would break a cap, and names a scope whose cap would
      break: the wallet's, or everyone's. */
  lemma RefusesExactly(h: History, c: Config, w: Address, worst: nat, now: Millis)
    requires WithinCaps(h, c) && NotBefore(h, now)
    ensures var r, t := Refused(h, c, w, worst, now), h + [Entry(w, now, worst, true, false)];
      && (r == None <==> WithinCaps(t, c))
      && (r.Some? ==> !WithinCapsAt(t, c, if r.value == Wallet then One(w) else Everyone, now))
  {
    var e := Entry(w, now, worst, true, false);
    if Refused(h, c, w, worst, now) == None {
      forall who, t ensures WithinCapsAt(h + [e], c, who, t) {
        ReserveWithin(h, c, w, worst, now, who, t);
      }
    }
    BothWindows(h, e, One(w), now);
    BothWindows(h, e, Everyone, now);
    hide Booked, Count;
    if Refused(h, c, w, worst, now) == Some(Wallet) {
      assert !WithinCapsAt(h + [e], c, One(w), now);
    } else if Refused(h, c, w, worst, now) == Some(Global) {
      assert !WithinCapsAt(h + [e], c, Everyone, now);
    }
  }

  /** Which scope a refusal names: the caps are looked at in the order wallet's hour, everyone's hour, wallet's day,
      everyone's day, and the first that leaves no room is the reason. */
  lemma RefusedBecause(h: History, c: Config, w: Address, worst: nat, now: Millis)
    ensures var r := Refused(h, c, w, worst, now);
      var hourFull := Count(h, One(w), now - 3_600_000, now) >= c.maxPerWalletPerHour;
      var globalHourFull := Count(h, Everyone, now - 3_600_000, now) >= c.maxGlobalPerHour;
      var dayFull := Booked(h, One(w), now - 86_400_000, now) + worst > c.maxLamportsPerWalletPerDay;
      var globalDayFull := Booked(h, Everyone, now - 86_400_000, now) + worst > c.maxLamportsGlobalPerDay;
      && (r == Some(Wallet) <==> hourFull || (!globalHourFull && dayFull))
      && (r == Some(Global) <==> !hourFull && (globalHourFull || (!dayFull && globalDayFull)))
  {
    hide Count, Booked;
  }

  lemma BothWindows(h: History, e: Entry, who: Who, now: Millis)
    requires e.at == now && Matches(e, who)
    ensures Booked(h + [e], who, now - DAY_MS, now) == Booked(h, who, now - DAY_MS, now) + e.lamports
    ensures Count(h + [e], who, now - HOUR_MS, now) == Count(h, who, now - HOUR_MS, now) + 1
  {
    WindowAppend(h, e, who, now - DAY_MS, now);
    WindowAppend(h, e, who, now - HOUR_MS, now);
  }

  lemma StepWithin(h: History, c: Config, e: Event)
    requires WithinCaps(h, c) && Orderly(h, e)
    ensures WithinCaps(Step(h, c, e), c)
  {
    forall who, t ensures WithinCapsAt(Step(h, c, e), c, who, t) {
      assert WithinCapsAt(h, c, who, t);
      match e
      case ReserveCall(w, worst, now) =>
        if Refused(h, c, w, worst, now) == None {
          ReserveWithin(h, c, w, worst, now, who, t);
        }
      case CommitCall(i, actual) =>
        if i < |h| && h[i].open {
          WindowUpdate(h, i, h[i].(lamports := actual, open := false), who, t - DAY_MS, t);
          WindowUpdate(h, i, h[i].(lamports := actual, open := false), who, t - HOUR_MS, t);
        }
      case CancelCall(i) =>
        if i < |h| && h[i].open {
          WindowUpdate(h, i, h[i].(cancelled := true, open := false), who, t - DAY_MS, t);
          WindowUpdate(h, i, h[i].(cancelled := true, open := false), who, t - HOUR_MS, t);
        }
    }
  }

  /** At every instant, over every run with a clock that does not run backwards and commits no larger
      than their reservations, the lamports booked in the day up to it and the reservations made in the
      hour up to it stay within the wallet's and the global caps. */
  lemma {:induction false} CapsHoldAlways(c: Config, es: seq<Event>)
    requires OrderlyRun(c, es)
    ensures WithinCaps(Run(c, es), c)
  {
    if es == [] {
      assert forall who, t :: WithinCapsAt([], c, who, t);
    } else {
      CapsHoldAlways(c, es[..|es| - 1]);
      StepWithin(Run(c, es[..|es| - 1]), c, es[|es| - 1]);
    }
  }

  /** The bound on commits is needed: a commit above the wallet's cap breaks it at once. */
  lemma OverCommitBreaksCap(c: Config, w: Address, cost: nat)
    requires c.maxPerWalletPerHour > 0 && c.maxGlobalPerHour > 0 && cost > c.maxLamportsPerWalletPerDay
    ensures !WithinCaps(Run(c, [ReserveCall(w, 0, 0), CommitCall(0, cost)]), c)
  {
    var es := [ReserveCall(w, 0, 0), CommitCall(0, cost)];
    assert es[..1] == [ReserveCall(w, 0, 0)] && [ReserveCall(w, 0, 0)][..0] == [];
    assert Run(c, []) == [];
    assert Refused([], c, w, 0, 0) == None;
    assert Run(c, es[..1]) == [] + [Entry(w, 0, 0, true, false)];
    var h := Run(c, es);
    assert h == [Entry(w, 0, cost, false, false)];
    assert h[..0] == [] && InWindow(h[0], One(w), 0 - DAY_MS, 0);
    assert Booked(h, One(w), 0 - DAY_MS, 0) == cost;
    assert !WithinCapsAt(h, c, One(w), 0);
  }

  // ---- the global list is the wallets' lists together ----

  ghost function BookedByWallet(h: History, ws: set<Address>, from: int, to: int): map<Address, nat> {
    map w | w in ws :: Booked(h, One(w), from, to)
  }

  ghost function CountByWallet(h: History, ws: set<Address>, from: int, to: int): map<Address, nat> {
    map w | w in ws :: Count(h, One(w), from, to)
  }

  lemma {:induction false} BookedIsTotal(h: History, ws: set<Address>, from: int, to: int)
    requires forall i :: 0 <= i < |h| ==> h[i].wallet in ws
    ensures Booked(h, Everyone, from, to) == Total(BookedByWallet(h, ws, from, to))
  {
    if h == [] {
      NothingTotal(BookedByWallet(h, ws, from, to));
    } else {
      var n := |h| - 1;
      var m, w := BookedByWallet(h[..n], ws, from, to), h[n].wallet;
      BookedIsTotal(h[..n], ws, from, to);
      if InWindow(h[n], Everyone, from, to) {
        assert BookedByWallet(h, ws, from, to) == m[w := m[w] + h[n].lamports];
        Raised(m, w, h[n].lamports);
      } else {
        assert BookedByWallet(h, ws, from, to) == m;
      }
    }
  }

  lemma {:induction false} CountIsTotal(h: History, ws: set<Address>, from: int, to: int)
    requires forall i :: 0 <= i < |h| ==> h[i].wallet in ws
    ensures Count(h, Everyone, from, to) == Total(CountByWallet(h, ws, from, to))
  {
    if h == [] {
      NothingTotal(CountByWallet(h, ws, from, to));
    } else {
      var n := |h| - 1;
      var m, w := CountByWallet(h[..n], ws, from, to), h[n].wallet;
      CountIsTotal(h[..n], ws, from, to);
      if InWindow(h[n], Everyone, from, to) {
        assert CountByWallet(h, ws, from, to) == m[w := m[w] + 1];
        Raised(m, w, 1);
      } else {
        assert CountByWallet(h, ws, from, to) == m;
      }
    }
  }

  /** What everyone has booked in a window, and how often, is the total of what each wallet has. */
  lemma GlobalIsTotal(h: History, ws: set<Address>, from: int, to: int)
    requires forall i :: 0 <= i < |h| ==> h[i].wallet in ws
    ensures Booked(h, Everyone, from, to) == Total(BookedByWallet(h, ws, from, to))
    ensures Count(h, Everyone, from, to) == Total(CountByWallet(h, ws, from, to))
  {
    BookedIsTotal(h, ws, from, to);
    CountIsTotal(h, ws, from, to);
  }

  lemma Raised(m: map<Address, nat>, w: Address, more: nat)
    requires w in m
    ensures Total(m[w := m[w] + more]) == Total(m) + more
  {
    TotalUpdate(m, w, m[w] + more);
    TotalSplit(m, w);
  }

  lemma NothingTotal(m: map<Address, nat>)
    requires forall w :: w in m ==> m[w] == 0
    ensures Total(m) == 0
    decreases |m|
  {
    if m != map[] {
      var w :| w in m;
      TotalSplit(m, w);
      NothingTotal(m - {w});
    }
  }
}
