/** When the RPC limiter admits a call, in every run with a clock that does not run backwards: said of the work it
    admitted since the caller's window, and everyone's, was opened. */
module RpcLimiterAnswers {
  import opened Basics
  import opened Tables
  import opened Windows
  import opened RpcLimiter
  import opened RpcLimiterRuns

  /** What was admitted since the last eviction. */
  function SinceEvicted(log: Log): Log {
    if log == [] || log[|log| - 1].Gone? then [] else SinceEvicted(log[..|log| - 1]) + [log[|log| - 1]]
  }

  /** A window's count is the work admitted since it was opened; none of that came after it was over. */
  ghost predicate Counted(log: Log, w: Option<Window>, clock: int) {
    && Past(log, clock)
    && match w
       case None => SinceEvicted(log) == []
       case Some(v) =>
         && v.start <= clock && v.used == Work(SinceEvicted(log), v.start, clock + 1)
         && forall i :: 0 <= i < |SinceEvicted(log)| ==> SinceEvicted(log)[i].at < v.start + MINUTE_MS
  }

  // ---- what an event does to a count ----

  lemma SinceLast(log: Log, m: Mark)
    ensures SinceEvicted(log + [m]) == if m.Gone? then [] else SinceEvicted(log) + [m]
  {
    assert (log + [m])[..|log|] == log;
  }

  lemma {:induction false} SincePast(log: Log, clock: int)
    requires Past(log, clock)
    ensures Past(SinceEvicted(log), clock)
  {
    if log != [] && !log[|log| - 1].Gone? {
      SincePast(log[..|log| - 1], clock);
    }
  }

  lemma CountedLater(log: Log, w: Option<Window>, clock: int, now: int)
    requires Counted(log, w, clock) && clock <= now
    ensures Counted(log, w, now)
  {
    if w.Some? {
      SincePast(log, clock);
      Beyond(SinceEvicted(log), clock, w.value.start, clock + 1, now + 1);
    }
  }

  /** A window opened when there is none, or the old one is over, has nothing in it. */
  lemma CountedAnew(log: Log, w: Option<Window>, now: Millis)
    requires Counted(log, w, now) && (w.Some? ==> now - w.value.start >= MINUTE_MS)
    ensures Counted(log, Some(Window(now, 0)), now)
  {
    SincePast(log, now);
    NothingBetween(SinceEvicted(log), now, now + 1);
  }

  lemma CountedHit(log: Log, v: Window, now: Millis, weight: nat)
    requires Counted(log, Some(v), now) && now - v.start < MINUTE_MS
    ensures Counted(log + [Hit(now, weight)], Some(v.(used := v.used + weight)), now)
  {
    SinceLast(log, Hit(now, weight));
    Appended(SinceEvicted(log), Hit(now, weight), v.start, now + 1);
  }

  lemma CountedGone(log: Log, w: Option<Window>, now: Millis)
    requires Counted(log, w, now)
    ensures Counted(log + [Gone(now)], None, now)
  {
    SinceLast(log, Gone(now));
  }

  // ---- one call ----

  lemma GlobalCounted(s: State, c: Config, e: Event, log: Log)
    requires s.hits.Good() && Counted(log, Some(s.global), e.now)
    ensures Counted(log + Marks(s, c, e, Everyone), Some(Call(s, c, e.key, e.weight, e.now).0.global), e.now)
  {
    var global := if Over(s.global, e.now) then Window(e.now, 0) else s.global;
    if Over(s.global, e.now) {
      CountedAnew(log, Some(s.global), e.now);
    }
    hide Counted;
    if Call(s, c, e.key, e.weight, e.now).1 == Admit {
      CountedHit(log, global, e.now, e.weight);
    } else {
      assert log + [] == log;
    }
  }

  lemma OwnCounted(s: State, c: Config, e: Event, log: Log)
    requires s.hits.Good() && Counted(log, WindowOf(s, Of(e.key)), e.now)
    ensures Counted(log + Marks(s, c, e, Of(e.key)), WindowOf(Call(s, c, e.key, e.weight, e.now).0, Of(e.key)), e.now)
  {
    var k, r := e.key, Call(s, c, e.key, e.weight, e.now);
    assert log + [] == log;
    hide Counted;
    if !r.1.GlobalFull? {
      OpenedWindow(s.hits, c, k, e.now);
      if k !in s.hits.at || Over(s.hits.at[k], e.now) {
        CountedAnew(log, WindowOf(s, Of(k)), e.now);
      }
      hide Opened;
      if r.1 == Admit {
        CountedHit(log, Opened(s.hits, c, k, e.now).at[k], e.now, e.weight);
      }
    }
  }

  lemma OtherCounted(s: State, c: Config, e: Event, k: Key, log: Log)
    requires TableGood(s.hits, c, e.now) && k != e.key && Counted(log, WindowOf(s, Of(k)), e.now)
    ensures Counted(log + Marks(s, c, e, Of(k)), WindowOf(Call(s, c, e.key, e.weight, e.now).0, Of(k)), e.now)
  {
    OtherKeys(s, c, e.key, e.weight, e.now, k);
    assert log + [] == log;
    hide Counted, Call;
    if k in s.hits.at && k !in Call(s, c, e.key, e.weight, e.now).0.hits.at {
      CountedGone(log, WindowOf(s, Of(k)), e.now);
    }
  }

  lemma {:induction false} RunCounted(c: Config, start: Millis, es: seq<Event>, who: Who)
    requires Timely(start, es)
    ensures Counted(LogOf(c, start, es, who), WindowOf(Run(c, start, es), who), Clock(start, es))
  {
    if es != [] {
      var earlier, e := es[..|es| - 1], es[|es| - 1];
      var s, log := Run(c, start, earlier), LogOf(c, start, earlier, who);
      RunCounted(c, start, earlier, who);
      CountedLater(log, WindowOf(s, who), Clock(start, earlier), e.now);
      RunGood(c, start, earlier);
      assert TableGood(s.hits, c, e.now);
      hide Counted, Call, TableGood, Marks;
      match who
      case Everyone => GlobalCounted(s, c, e, log);
      case Of(k) =>
        if k == e.key {
          OwnCounted(s, c, e, log);
        } else {
          OtherCounted(s, c, e, k, log);
        }
    }
  }

  // ---- the answer ----

  /** When the window that a call at `now` falls into was opened: now, if there is none or it is a minute old. */
  function OpenedAt(w: Option<Window>, now: Millis): Millis {
    if w.Some? && now - w.value.start < 60_000 then w.value.start else now
  }

  /** The work admitted in that window so far. */
  ghost function WorkSo(log: Log, w: Option<Window>, now: Millis): nat {
    Work(SinceEvicted(log), OpenedAt(w, now), now + 1)
  }

  /** What a call finds in its window. */
  function Found(w: Option<Window>, now: Millis): Window {
    if w.Some? && !Over(w.value, now) then w.value else Window(now, 0)
  }

  lemma FoundIsWork(log: Log, w: Option<Window>, now: Millis)
    requires Counted(log, w, now)
    ensures Found(w, now) == Window(OpenedAt(w, now), WorkSo(log, w, now))
  {
    if w.None? || now - w.value.start >= 60_000 {
      CountedAnew(log, w, now);
    }
  }

  lemma CallAnswer(s: State, c: Config, key: Key, weight: nat, now: Millis)
    requires s.hits.Good()
    ensures var g, h := Found(Some(s.global), now), Found(WindowOf(s, Of(key)), now);
      Call(s, c, key, weight, now).1
      == if g.used + weight > c.globalPerMinute then GlobalFull(Wait(g, now))
         else if h.used + weight > Budget(c, key) then KeyFull(Wait(h, now))
         else Admit
  {
    OpenedWindow(s.hits, c, key, now);
    hide Opened, Wait, Budget;
  }

  /** The least number of whole seconds, at least one, after which a window opened then is over. */
  predicate RightWait(seconds: nat, since: Millis, now: Millis) {
    && seconds >= 1 && now + 1_000 * seconds >= since + 60_000
    && (seconds > 1 ==> now + 1_000 * (seconds - 1) < since + 60_000)
  }

  lemma WaitIsRight(w: Window, now: Millis)
    requires w.start <= now
    ensures RightWait(Wait(w, now), w.start, now)
  {
  }

  lemma OpenedBefore(log: Log, w: Option<Window>, now: Millis)
    requires Counted(log, w, now)
    ensures OpenedAt(w, now) <= now
  {
  }

  /** A call is refused for everyone's budget exactly when the work admitted in the current window and this call's
      weight exceed it; otherwise for its key's own budget, exactly when they exceed that in the key's window;
      otherwise it is admitted. A caller refused is told the seconds until that window is over. */
  lemma AdmittedExactly(c: Config, start: Millis, es: seq<Event>, e: Event)
    requires Timely(start, es) && Clock(start, es) <= e.now
    ensures var s, own := Run(c, start, es), WindowOf(Run(c, start, es), Of(e.key));
      var answer := Call(s, c, e.key, e.weight, e.now).1;
      var fitsAll :=
        WorkSo(LogOf(c, start, es, Everyone), Some(s.global), e.now) + e.weight <= c.globalPerMinute;
      var fitsOwn := WorkSo(LogOf(c, start, es, Of(e.key)), own, e.now) + e.weight <= Share(c, e.key);
      && (answer == Admit <==> fitsAll && fitsOwn)
      && (answer.GlobalFull? <==> !fitsAll)
      && (answer.KeyFull? <==> fitsAll && !fitsOwn)
      && (answer.GlobalFull? ==> RightWait(answer.retryAfterSeconds, OpenedAt(Some(s.global), e.now), e.now))
      && (answer.KeyFull? ==> RightWait(answer.retryAfterSeconds, OpenedAt(own, e.now), e.now))
  {
    hide *;
    var s, own := Run(c, start, es), WindowOf(Run(c, start, es), Of(e.key));
    var all, mine := LogOf(c, start, es, Everyone), LogOf(c, start, es, Of(e.key));
    CountedNow(c, start, es, Everyone, e.now);
    CountedNow(c, start, es, Of(e.key), e.now);
    EveryonesWindow(s);
    FoundIsWork(all, Some(s.global), e.now);
    FoundIsWork(mine, own, e.now);
    OpenedBefore(all, Some(s.global), e.now);
    OpenedBefore(mine, own, e.now);
    WaitIsRight(Found(Some(s.global), e.now), e.now);
    WaitIsRight(Found(own, e.now), e.now);
    ShareIsBudget(c, e.key);
    CallAnswer(s, c, e.key, e.weight, e.now);
  }

  lemma EveryonesWindow(s: State)
    ensures WindowOf(s, Everyone) == Some(s.global)
  {
  }

  lemma CountedNow(c: Config, start: Millis, es: seq<Event>, who: Who, now: Millis)
    requires Timely(start, es) && Clock(start, es) <= now
    ensures Counted(LogOf(c, start, es, who), WindowOf(Run(c, start, es), who), now)
  {
    hide *;
    RunCounted(c, start, es, who);
    CountedLater(LogOf(c, start, es, who), WindowOf(Run(c, start, es), who), Clock(start, es), now);
  }

  // ---- windows are opened and evicted only when they have to be ----

  /** A call past everyone's budget opens no window; any other leaves its key the window it falls into. Another key's
      window changes only by being evicted, and that only for a key without a window, in a table that is full. */
  lemma WindowsStay(c: Config, start: Millis, es: seq<Event>, e: Event, k: Key)
    requires Timely(start, es) && Clock(start, es) <= e.now
    ensures var s, r := Run(c, start, es), Call(Run(c, start, es), c, e.key, e.weight, e.now);
      var t := r.0;
      && t.global.start == OpenedAt(Some(s.global), e.now)
      && (r.1.GlobalFull? ==> t.hits == s.hits)
      && (!r.1.GlobalFull? ==>
            e.key in t.hits.at && t.hits.at[e.key].start == OpenedAt(WindowOf(s, Of(e.key)), e.now))
      && (k != e.key && k in t.hits.at ==> k in s.hits.at && t.hits.at[k] == s.hits.at[k])
      && (k != e.key && k in s.hits.at && k !in t.hits.at ==>
            e.key !in s.hits.at && |t.hits.at| == Max(c.maxKeys, 1))
  {
    hide *;
    var s, now := Run(c, start, es), e.now;
    RunGood(c, start, es);
    TableLater(s.hits, c, Clock(start, es), now);
    CallWindows(s, c, e.key, e.weight, now);
    if k != e.key {
      OtherKeys(s, c, e.key, e.weight, now, k);
      if k in s.hits.at {
        EvictedForRoom(s.hits, c, e.key, now, k);
      }
    }
  }

  lemma TableLater(hits: Hits, c: Config, clock: int, now: int)
    requires TableGood(hits, c, clock) && clock <= now
    ensures TableGood(hits, c, now) && hits.Good()
  {
    hide Ordered;
  }

  /** The windows after a call, and how many there are. */
  lemma CallWindows(s: State, c: Config, key: Key, weight: nat, now: Millis)
    requires s.hits.Good()
    ensures var r, room := Call(s, c, key, weight, now), Opened(s.hits, c, key, now);
      && r.0.global.start == OpenedAt(Some(s.global), now)
      && (if r.1.GlobalFull? then r.0.hits == s.hits
          else && key in r.0.hits.at && r.0.hits.at[key].start == OpenedAt(WindowOf(s, Of(key)), now)
               && r.0.hits.at.Keys == room.at.Keys && |r.0.hits.at| == |room.at|)
  {
    OpenedWindow(s.hits, c, key, now);
    var r, room := Call(s, c, key, weight, now), Opened(s.hits, c, key, now);
    hide Opened, Budget, Wait;
    if !r.1.GlobalFull? {
      assert r.0.hits.at.Keys == room.at.Keys;
      assert |r.0.hits.at| == |r.0.hits.at.Keys| && |room.at| == |room.at.Keys|;
    }
  }

  lemma EvictedForRoom(hits: Hits, c: Config, key: Key, now: Millis, k: Key)
    requires TableGood(hits, c, now) && k != key && k in hits.at
    ensures k !in Opened(hits, c, key, now).at ==>
      key !in hits.at && |Opened(hits, c, key, now).at| == Max(c.maxKeys, 1)
  {
    assert hits.Good() && Ordered(hits) && |hits.keys| <= Max(c.maxKeys, 1);
    var rest := hits.Without(key);
    OpenedParts(hits, c, key, now);
    hide *;
    OnlyOrdered(hits, hits.at.Keys - {key});
    StaysWithout(hits, key);
    OneLess(hits, key);
    EvictTakesOldest(rest, c.maxKeys);
    if k !in Opened(hits, c, key, now).at {
      KeyMeansSize(rest, k);
      SizeIsKeys(Evict(rest, c.maxKeys));
    }
  }

  lemma KeyMeansSize(hits: Hits, k: Key)
    requires hits.Good() && k in hits.at
    ensures |hits.keys| > 0
  {
  }

  lemma OneLess(hits: Hits, key: Key)
    requires hits.Good()
    ensures hits.Without(key).Good() && |hits.Without(key).keys| == |hits.keys| - if key in hits.at then 1 else 0
  {
    var rest := hits.Without(key);
    OnlyGood(hits, hits.at.Keys - {key});
    SizeIsKeys(hits);
    SizeIsKeys(rest);
    assert rest.at.Keys == hits.at.Keys - {key};
    assert |rest.at| == |rest.at.Keys| && |hits.at| == |hits.at.Keys|;
  }

  /** Opening a window leaves the table as it is, or adds the key to what the evictions leave of the others. */
  lemma OpenedParts(hits: Hits, c: Config, key: Key, now: Millis)
    requires hits.Good()
    ensures hits.Without(key).Good()
    ensures var t, room := Opened(hits, c, key, now), Evict(hits.Without(key), c.maxKeys);
      || (t == hits && key in hits.at)
      || ((forall k :: k in room.at && k != key ==> k in t.at) && (key !in room.at ==> |t.at| == |room.at| + 1))
  {
    OnlyGood(hits, hits.at.Keys - {key});
    hide Evict;
    var t, room := Opened(hits, c, key, now), Evict(hits.Without(key), c.maxKeys);
    if t != hits && key !in room.at {
      assert t.at.Keys == room.at.Keys + {key};
      assert |t.at| == |t.at.Keys| && |room.at| == |room.at.Keys|;
    }
  }
}
