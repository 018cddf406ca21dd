/** What the RPC limiter admits over every run of calls with a clock that does not run backwards. */
module RpcLimiterRuns {
  import opened Basics
  import opened Tables
  import opened Windows
  import opened RpcLimiter

  datatype Event = Event(key: Key, weight: nat, now: Millis)

  ghost function Run(c: Config, start: Millis, es: seq<Event>): (s: State)
    ensures s.hits.Good()
  {
    if es == [] then State(Table([], map[]), Window(start, 0))
    else var e := es[|es| - 1]; Call(Run(c, start, es[..|es| - 1]), c, e.key, e.weight, e.now).0
  }

  /** Whose work is counted: one key's, or everyone's. */
  datatype Who = Of(key: Key) | Everyone

  /** What one call puts into a log: the eviction of the key, and the work admitted. */
  ghost function Marks(s: State, c: Config, e: Event, who: Who): Log
    requires s.hits.Good()
  {
    var r := Call(s, c, e.key, e.weight, e.now);
    match who
    case Everyone => if r.1 == Admit then [Hit(e.now, e.weight)] else []
    case Of(k) =>
      if k in s.hits.at && k !in r.0.hits.at then [Gone(e.now)]
      else if k == e.key && r.1 == Admit then [Hit(e.now, e.weight)]
      else []
  }

  ghost function LogOf(c: Config, start: Millis, es: seq<Event>, who: Who): Log {
    if es == [] then []
      else LogOf(c, start, es[..|es| - 1], who) + Marks(Run(c, start, es[..|es| - 1]), c, es[|es| - 1], who)
  }

  function Clock(start: Millis, es: seq<Event>): Millis {
    if es == [] then start else es[|es| - 1].now
  }

  predicate Timely(start: Millis, es: seq<Event>) {
    es == [] || (Timely(start, es[..|es| - 1]) && Clock(start, es[..|es| - 1]) <= es[|es| - 1].now)
  }

  /** The window a subject is counted in, if it has one. */
  function WindowOf(s: State, who: Who): Option<Window> {
    match who
    case Everyone => Some(s.global)
    case Of(k) => if k in s.hits.at then Some(s.hits.at[k]) else None
  }

  function BudgetOf(c: Config, who: Who): nat {
    match who
    case Everyone => c.globalPerMinute
    case Of(k) => Budget(c, k)
  }

  // ---- one call ----

  lemma GlobalStep(s: State, c: Config, e: Event, log: Log)
    requires s.hits.Good() && Tracks(log, Some(s.global), c.globalPerMinute, e.now)
    ensures var r := Call(s, c, e.key, e.weight, e.now);
      Tracks(log + Marks(s, c, e, Everyone), Some(r.0.global), c.globalPerMinute, e.now)
  {
    var global := if Over(s.global, e.now) then Window(e.now, 0) else s.global;
    if Over(s.global, e.now) {
      Renewed(log, Some(s.global), c.globalPerMinute, e.now);
    }
    assert Tracks(log, Some(global), c.globalPerMinute, e.now);
    hide Tracks;
    if Call(s, c, e.key, e.weight, e.now).1 == Admit {
      Admitted(log, global, c.globalPerMinute, e.now, e.weight);
    } else {
      assert log + [] == log;
    }
  }

  /** The window of the key a call is for. */
  lemma OpenedWindow(hits: Hits, c: Config, key: Key, now: Millis)
    requires hits.Good()
    ensures var t := Opened(hits, c, key, now);
      t.at[key] == if key in hits.at && !Over(hits.at[key], now) then hits.at[key] else Window(now, 0)
  {
  }

  lemma OwnStep(s: State, c: Config, e: Event, log: Log)
    requires s.hits.Good() && Tracks(log, WindowOf(s, Of(e.key)), Budget(c, e.key), e.now)
    ensures var r := Call(s, c, e.key, e.weight, e.now);
      Tracks(log + Marks(s, c, e, Of(e.key)), WindowOf(r.0, Of(e.key)), Budget(c, e.key), e.now)
  {
    var k, r := e.key, Call(s, c, e.key, e.weight, e.now);
    assert log + [] == log;
    if !r.1.GlobalFull? {
      OpenedWindow(s.hits, c, k, e.now);
      if k !in s.hits.at || Over(s.hits.at[k], e.now) {
        Renewed(log, WindowOf(s, Of(k)), Budget(c, k), e.now);
      }
      var h := Opened(s.hits, c, k, e.now).at[k];
      assert Tracks(log, Some(h), Budget(c, k), e.now);
      hide Tracks, Opened;
      if r.1 == Admit {
        Admitted(log, h, Budget(c, k), e.now, e.weight);
      }
    }
  }

  lemma OtherStep(s: State, c: Config, e: Event, k: Key, log: Log)
    requires TableGood(s.hits, c, e.now) && k != e.key && Tracks(log, WindowOf(s, Of(k)), Budget(c, k), e.now)
    ensures var r := Call(s, c, e.key, e.weight, e.now);
      Tracks(log + Marks(s, c, e, Of(k)), WindowOf(r.0, Of(k)), Budget(c, k), e.now)
  {
    OtherKeys(s, c, e.key, e.weight, e.now, k);
    var r := Call(s, c, e.key, e.weight, e.now);
    assert log + [] == log;
    hide Tracks, Call;
    if k in s.hits.at && k !in r.0.hits.at {
      Evicted(log, s.hits.at[k], Budget(c, k), e.now);
    }
  }

  // ---- runs ----

  lemma {:induction false} RunGood(c: Config, start: Millis, es: seq<Event>)
    requires Timely(start, es)
    ensures TableGood(Run(c, start, es).hits, c, Clock(start, es))
  {
    if es != [] {
      var e := es[|es| - 1];
      RunGood(c, start, es[..|es| - 1]);
      var s := Run(c, start, es[..|es| - 1]);
      assert Begun(s.hits, e.now);
      CallGood(s, c, e.key, e.weight, e.now);
    }
  }

  /** The table never has more keys than it may (or one), and lists them oldest window first, so that the
      key evicted for room is always one with an oldest window. */
  lemma TableBoundedAndOrdered(c: Config, start: Millis, es: seq<Event>)
    requires Timely(start, es)
    ensures var hits := Run(c, start, es).hits;
      && |hits.at| <= Max(c.maxKeys, 1)
      && forall i, j :: 0 <= i < j < |hits.keys| ==> hits.at[hits.keys[i]].start <= hits.at[hits.keys[j]].start
  {
    RunGood(c, start, es);
    SizeIsKeys(Run(c, start, es).hits);
  }

  /** A call that evicts keys evicts the oldest windows. */
  lemma EvictionTakesOldest(c: Config, start: Millis, es: seq<Event>, e: Event, gone: Key, left: Key)
    requires Timely(start, es + [e])
    requires gone in Run(c, start, es).hits.at && gone !in Run(c, start, es + [e]).hits.at
    requires left in Run(c, start, es).hits.at && left in Run(c, start, es + [e]).hits.at && left != e.key
    ensures Run(c, start, es).hits.at[gone].start <= Run(c, start, es).hits.at[left].start
  {
    assert (es + [e])[..|es|] == es;
    RunGood(c, start, es);
    var s := Run(c, start, es);
    assert TableGood(s.hits, c, e.now);
    CallDomain(s, c, e);
    hide *;
    OpenedTakesOldest(s.hits, c, e.key, e.now, gone, left);
  }

  /** A call changes which keys are in the table only by opening its window. */
  lemma CallDomain(s: State, c: Config, e: Event)
    requires s.hits.Good()
    ensures var t := Call(s, c, e.key, e.weight, e.now).0.hits;
      t == s.hits || t.at.Keys == Opened(s.hits, c, e.key, e.now).at.Keys
  {
    hide Opened;
  }

  lemma {:induction false} RunTracks(c: Config, start: Millis, es: seq<Event>, who: Who)
    requires Timely(start, es)
    ensures Tracks(LogOf(c, start, es, who), WindowOf(Run(c, start, es), who), BudgetOf(c, who), Clock(start, es))
  {
    if es == [] {
      Starts(BudgetOf(c, who), start);
      if who == Everyone {
        Renewed([], None, c.globalPerMinute, start);
      }
    } else {
      var earlier, e := es[..|es| - 1], es[|es| - 1];
      var s, log := Run(c, start, earlier), LogOf(c, start, earlier, who);
      RunTracks(c, start, earlier, who);
      Later(log, WindowOf(s, who), BudgetOf(c, who), Clock(start, earlier), e.now);
      RunGood(c, start, earlier);
      assert TableGood(s.hits, c, e.now);
      hide Tracks, Call, TableGood, Marks;
      match who
      case Everyone => GlobalStep(s, c, e, log);
      case Of(k) =>
        if k == e.key {
          OwnStep(s, c, e, log);
        } else {
          OtherStep(s, c, e, k, log);
        }
    }
  }

  lemma {:induction false} EveryoneNeverEvicted(c: Config, start: Millis, es: seq<Event>, t: int, to: int)
    ensures Evictions(LogOf(c, start, es, Everyone), t, to) == 0
  {
    if es != [] {
      EveryoneNeverEvicted(c, start, es[..|es| - 1], t, to);
      var log, s, e := LogOf(c, start, es[..|es| - 1], Everyone), Run(c, start, es[..|es| - 1]), es[|es| - 1];
      Joined(log, Marks(s, c, e, Everyone), t, to);
      NoEvictionIn(Marks(s, c, e, Everyone), t, to);
    }
  }

  lemma NoEvictionIn(log: Log, t: int, to: int)
    requires |log| <= 1 && (log != [] ==> log[0].Hit?)
    ensures Evictions(log, t, to) == 0
  {
    assert log != [] ==> log[..0] == [];
  }

  /** An address gets the configured budget; those that could not be resolved share three times as much. */
  function Share(c: Config, key: Key): nat {
    if |key| >= 8 && key[|key| - 8..] == ":unknown" then 3 * c.perIpPerMinute else c.perIpPerMinute
  }

  lemma ShareIsBudget(c: Config, key: Key)
    ensures Share(c, key) == Budget(c, key)
  {
  }

  /** In any half-open minute, the work admitted in all is at most twice the global budget; that admitted
      for one key is at most twice its own budget, and once more for each time the key was evicted in that
      very minute. */
  lemma WorkInAnyMinute(c: Config, start: Millis, es: seq<Event>, k: Key, t: int)
    requires Timely(start, es)
    ensures Work(LogOf(c, start, es, Everyone), t, t + MINUTE_MS) <= 2 * c.globalPerMinute
    ensures var log := LogOf(c, start, es, Of(k));
            Work(log, t, t + MINUTE_MS) <= (2 + Evictions(log, t, t + MINUTE_MS)) * Share(c, k)
  {
    ShareIsBudget(c, k);
    RunTracks(c, start, es, Everyone);
    EveryoneNeverEvicted(c, start, es, t, t + MINUTE_MS);
    assert MinuteBounded(LogOf(c, start, es, Everyone), c.globalPerMinute, t);
    TimesIsProduct(c.globalPerMinute, 2);
    RunTracks(c, start, es, Of(k));
    var log := LogOf(c, start, es, Of(k));
    assert MinuteBounded(log, Budget(c, k), t);
    TimesIsProduct(Budget(c, k), 2 + Evictions(log, t, t + MINUTE_MS));
  }

  lemma {:induction false} TimesIsProduct(budget: nat, n: nat)
    ensures Times(budget, n) == n * budget
  {
    if n > 0 {
      TimesIsProduct(budget, n - 1);
    }
  }
}
