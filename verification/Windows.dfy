/** Fixed windows of a minute, as the RPC limiter counts work in them (backend/src/rpcproxy.ts). The log of one
    subject, an address or everyone, holds the work admitted for it and the times its window was evicted;
    between evictions, no half-open minute holds more than twice the budget. */
module Windows {
  import opened Basics

  const MINUTE_MS := 60_000

  datatype Window = Window(start: Millis, used: nat)

  datatype Mark = Hit(at: Millis, weight: nat) | Gone(at: Millis)

  type Log = seq<Mark>

  /** Work admitted, and evictions, from `from` up to but not including `to`. */
  function Work(log: Log, from: int, to: int): nat {
    if log == [] then 0
    else Work(log[..|log| - 1], from, to) + if log[|log| - 1].Hit? && from <= log[|log| - 1].at < to then
      log[|log| - 1].weight else 0
  }

  function Evictions(log: Log, from: int, to: int): nat {
    if log == [] then 0
    else Evictions(log[..|log| - 1], from, to) + if log[|log| - 1].Gone? && from <= log[|log| - 1].at < to then 1 else 0
  }

  function Times(budget: nat, n: nat): nat {
    if n == 0 then 0 else budget + Times(budget, n - 1)
  }

  lemma TimesMonotone(budget: nat, m: nat, n: nat)
    requires m <= n
    ensures Times(budget, m) <= Times(budget, n)
    decreases n
  {
    if m < n {
      TimesMonotone(budget, m, n - 1);
    }
  }

  ghost predicate MinuteBounded(log: Log, budget: nat, t: int) {
    Work(log, t, t + MINUTE_MS) <= Times(budget, 2 + Evictions(log, t, t + MINUTE_MS))
  }

  /** No half-open minute holds more than two budgets' work, and one more per eviction in it. */
  ghost predicate Bounded(log: Log, budget: nat) {
    forall t: int :: MinuteBounded(log, budget, t)
  }

  ghost predicate Past(log: Log, clock: int) {
    forall i :: 0 <= i < |log| ==> log[i].at <= clock
  }

  /** From `t` to `end`, both included, there is at most one budget's work, and one more per eviction. */
  ghost predicate OneBudget(log: Log, budget: nat, t: int, end: int) {
    Work(log, t, end + 1) <= Times(budget, 1 + Evictions(log, t, end + 1))
  }

  /** A log that leaves room for one more budget in every minute that reaches past `end`. */
  ghost predicate Quiet(log: Log, budget: nat, end: int) {
    Past(log, end) && forall t :: end - MINUTE_MS < t ==> OneBudget(log, budget, t, end)
  }

  /** Hits of one window: nothing else, and none before it starts. */
  ghost predicate OfWindow(log: Log, start: int, end: int) {
    forall i :: 0 <= i < |log| ==> log[i].Hit? && start <= log[i].at <= end
  }

  ghost predicate Split(log: Log, p: nat, v: Window, budget: nat, clock: int) {
    && p <= |log| && Quiet(log[..p], budget, v.start) && OfWindow(log[p..], v.start, clock)
    && Work(log[p..], v.start, clock + 1) == v.used <= budget
  }

  /** What a subject's log and its current window, if it has one, have to do with each other. */
  ghost predicate Tracks(log: Log, w: Option<Window>, budget: nat, clock: int) {
    && Past(log, clock) && Bounded(log, budget)
    && match w
       case None => Quiet(log, budget, clock)
       case Some(v) => v.start <= clock && exists p: nat :: Split(log, p, v, budget, clock)
  }

  // ---- sums over logs ----

  lemma {:induction false} NothingBetween(log: Log, from: int, to: int)
    requires forall i :: 0 <= i < |log| ==> !(from <= log[i].at < to)
    ensures Work(log, from, to) == 0 && Evictions(log, from, to) == 0
  {
    if log != [] {
      NothingBetween(log[..|log| - 1], from, to);
    }
  }

  /** Only what happened by `clock` counts. */
  lemma {:induction false} Beyond(log: Log, clock: int, from: int, to: int, to': int)
    requires Past(log, clock) && clock < to && clock < to'
    ensures Work(log, from, to) == Work(log, from, to') && Evictions(log, from, to) == Evictions(log, from, to')
  {
    if log != [] {
      Beyond(log[..|log| - 1], clock, from, to, to');
    }
  }

  lemma {:induction false} Joined(a: Log, b: Log, from: int, to: int)
    ensures Work(a + b, from, to) == Work(a, from, to) + Work(b, from, to)
    ensures Evictions(a + b, from, to) == Evictions(a, from, to) + Evictions(b, from, to)
  {
    if b == [] {
      assert a + b == a;
    } else {
      assert (a + b)[..|a + b| - 1] == a + b[..|b| - 1];
      Joined(a, b[..|b| - 1], from, to);
    }
  }

  lemma Appended(log: Log, m: Mark, from: int, to: int)
    ensures Work(log + [m], from, to) == Work(log, from, to) + if m.Hit? && from <= m.at < to then m.weight else 0
    ensures Evictions(log + [m], from, to) == Evictions(log, from, to) + if m.Gone? && from <= m.at < to then 1 else 0
  {
    assert (log + [m])[..|log|] == log;
  }

  /** Within one window, a later start sees no more; nothing was evicted. */
  lemma {:induction false} WindowWork(log: Log, start: int, clock: int, t: int, to: int)
    requires OfWindow(log, start, clock) && clock < to
    ensures Work(log, t, to) <= Work(log, start, to) && Evictions(log, t, to) == 0
  {
    if log != [] {
      WindowWork(log[..|log| - 1], start, clock, t, to);
    }
  }

  // ---- what an event does ----

  lemma Starts(budget: nat, clock: int)
    ensures Tracks([], None, budget, clock)
  {
    assert forall t :: MinuteBounded([], budget, t);
  }

  lemma QuietLater(log: Log, budget: nat, end: int, now: int)
    requires Quiet(log, budget, end) && end <= now
    ensures Quiet(log, budget, now)
  {
    forall t | now - MINUTE_MS < t ensures OneBudget(log, budget, t, now) {
      assert OneBudget(log, budget, t, end);
      Beyond(log, end, t, end + 1, now + 1);
    }
  }

  lemma Later(log: Log, w: Option<Window>, budget: nat, clock: int, now: int)
    requires Tracks(log, w, budget, clock) && clock <= now
    ensures Tracks(log, w, budget, now)
  {
    match w
    case None => QuietLater(log, budget, clock, now);
    case Some(v) =>
      var p: nat :| Split(log, p, v, budget, clock);
      Beyond(log[p..], clock, v.start, clock + 1, now + 1);
      assert Split(log, p, v, budget, now);
  }

  /** Everything so far, from shortly before the current window's start on: two budgets, and one more per
      eviction. */
  lemma SplitWork(log: Log, p: nat, v: Window, budget: nat, clock: int, t: int)
    requires Split(log, p, v, budget, clock) && v.start <= clock && v.start - MINUTE_MS < t
    ensures Work(log, t, clock + 1) <= Times(budget, 1 + Evictions(log, t, clock + 1)) + v.used
    ensures t > v.start ==> Work(log, t, clock + 1) <= v.used
  {
    assert log == log[..p] + log[p..];
    Joined(log[..p], log[p..], t, clock + 1);
    WindowWork(log[p..], v.start, clock, t, clock + 1);
    assert OneBudget(log[..p], budget, t, v.start);
    Beyond(log[..p], v.start, t, v.start + 1, clock + 1);
    if t > v.start {
      NothingBetween(log[..p], t, clock + 1);
    }
  }

  /** A new window starts when there is none, or the old one is over. */
  lemma Renewed(log: Log, w: Option<Window>, budget: nat, now: Millis)
    requires Tracks(log, w, budget, now) && (w.Some? ==> now - w.value.start >= MINUTE_MS)
    ensures Tracks(log, Some(Window(now, 0)), budget, now)
  {
    if w.Some? {
      var p: nat :| Split(log, p, w.value, budget, now);
      forall t | now - MINUTE_MS < t ensures OneBudget(log, budget, t, now) {
        SplitWork(log, p, w.value, budget, now, t);
        TimesMonotone(budget, 1, 1 + Evictions(log, t, now + 1));
        assert Times(budget, 1) == budget + Times(budget, 0);
      }
    }
    assert log[..|log|] == log && log[|log|..] == [];
    assert Split(log, |log|, Window(now, 0), budget, now);
  }

  lemma AdmittedMinute(log: Log, p: nat, v: Window, budget: nat, now: Millis, weight: nat, t: int)
    requires Past(log, now) && MinuteBounded(log, budget, t) && Split(log, p, v, budget, now)
    requires v.start <= now < v.start + MINUTE_MS && v.used + weight <= budget
    ensures MinuteBounded(log + [Hit(now, weight)], budget, t)
  {
    Appended(log, Hit(now, weight), t, t + MINUTE_MS);
    if t <= now < t + MINUTE_MS {
      SplitWork(log, p, v, budget, now, t);
      Beyond(log, now, t, now + 1, t + MINUTE_MS);
      var n := Evictions(log, t, t + MINUTE_MS);
      assert Times(budget, 2 + n) == budget + Times(budget, 1 + n);
    }
    hide Work, Evictions, Split;
  }

  lemma AdmittedSplit(log: Log, p: nat, v: Window, budget: nat, now: Millis, weight: nat)
    requires Split(log, p, v, budget, now) && v.start <= now && v.used + weight <= budget
    ensures Split(log + [Hit(now, weight)], p, v.(used := v.used + weight), budget, now)
  {
    var m := Hit(now, weight);
    assert (log + [m])[..p] == log[..p] && (log + [m])[p..] == log[p..] + [m];
    Appended(log[p..], m, v.start, now + 1);
  }

  /** Work is admitted into a window that is not over, within the budget. */
  lemma Admitted(log: Log, v: Window, budget: nat, now: Millis, weight: nat)
    requires Tracks(log, Some(v), budget, now) && now - v.start < MINUTE_MS && v.used + weight <= budget
    ensures Tracks(log + [Hit(now, weight)], Some(v.(used := v.used + weight)), budget, now)
  {
    var p: nat :| Split(log, p, v, budget, now);
    AdmittedSplit(log, p, v, budget, now, weight);
    hide Split, MinuteBounded;
    forall t ensures MinuteBounded(log + [Hit(now, weight)], budget, t) {
      AdmittedMinute(log, p, v, budget, now, weight, t);
    }
  }

  /** The window is evicted. */
  lemma Evicted(log: Log, v: Window, budget: nat, now: Millis)
    requires Tracks(log, Some(v), budget, now)
    ensures Tracks(log + [Gone(now)], None, budget, now)
  {
    var p: nat :| Split(log, p, v, budget, now);
    var m := Gone(now);
    forall t ensures MinuteBounded(log + [m], budget, t) {
      assert MinuteBounded(log, budget, t);
      Appended(log, m, t, t + MINUTE_MS);
      TimesMonotone(budget, 2 + Evictions(log, t, t + MINUTE_MS), 2 + Evictions(log + [m], t, t + MINUTE_MS));
    }
    forall t | now - MINUTE_MS < t ensures OneBudget(log + [m], budget, t, now) {
      Appended(log, m, t, now + 1);
      SplitWork(log, p, v, budget, now, t);
      var n := Evictions(log, t, now + 1);
      assert Times(budget, 2 + n) == budget + Times(budget, 1 + n);
      if t > now {
        NothingBetween(log, t, now + 1);
      }
    }
  }
}
