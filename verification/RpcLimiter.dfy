/** Work-weighted admission to the RPC proxy (backend/src/rpcproxy.ts): a budget a minute per address and one
    for everyone, in fixed windows, with a bounded table of addresses. */
module RpcLimiter {
  import opened Basics
  import opened Tables
  import opened Windows

  type Key = string

  datatype Config = Config(perIpPerMinute: nat, globalPerMinute: nat, maxKeys: nat)

  datatype Answer = Admit | GlobalFull(retryAfterSeconds: nat) | KeyFull(retryAfterSeconds: nat)

  const UNKNOWN_SUFFIX := ":unknown"

  predicate EndsWith(s: string, suffix: string) {
    |suffix| <= |s| && s[|s| - |suffix|..] == suffix
  }

  /** An address that could not be resolved may be a whole venue behind one proxy. */
  function Budget(c: Config, key: Key): nat {
    if EndsWith(key, UNKNOWN_SUFFIX) then c.perIpPerMinute * 3 else c.perIpPerMinute
  }

  /** Whole seconds until a window is over, rounded up, and at least one. */
  function Wait(w: Window, now: Millis): nat {
    var left := w.start + MINUTE_MS - now;
    if left <= 1_000 then 1 else (left + 999) / 1_000
  }

  /** A caller told to wait finds the window over when it comes back. */
  lemma WaitIsEnough(w: Window, now: Millis)
    requires w.start <= now < w.start + MINUTE_MS
    ensures 1 <= Wait(w, now) <= 60
    ensures now + Wait(w, now) * 1_000 - w.start >= MINUTE_MS
      && (Wait(w, now) > 1 ==> now + (Wait(w, now) - 1) * 1_000 - w.start < MINUTE_MS)
  {
  }

  type Hits = Table<Key, Window>

  datatype State = State(hits: Hits, global: Window)

  function Over(w: Window, now: Millis): bool {
    now - w.start >= MINUTE_MS
  }

  /** Makes room for one more key. */
  ghost function Evict(hits: Hits, maxKeys: nat): (t: Hits)
    requires hits.Good()
    ensures t.Good()
    decreases |hits.keys|
  {
    if |hits.keys| > 0 && |hits.keys| >= maxKeys then
      WithoutFirst(hits);
      OnlyGood(hits, hits.at.Keys - {hits.keys[0]});
      Evict(hits.Without(hits.keys[0]), maxKeys)
    else hits
  }

  /** The table with a window for `key` that is not over. */
  ghost function Opened(hits: Hits, c: Config, key: Key, now: Millis): (t: Hits)
    requires hits.Good()
    ensures t.Good() && key in t.at
  {
    if key in hits.at && !Over(hits.at[key], now) then hits
    else
      OnlyGood(hits, hits.at.Keys - {key});
      var room := Evict(hits.Without(key), c.maxKeys);
      PutGood(room, key, Window(now, 0));
      room.Put(key, Window(now, 0))
  }

  /** One call: the state after it, and the answer. */
  ghost function Call(s: State, c: Config, key: Key, weight: nat, now: Millis): (r: (State, Answer))
    requires s.hits.Good()
    ensures r.0.hits.Good()
  {
    var global := if Over(s.global, now) then Window(now, 0) else s.global;
    if global.used + weight > c.globalPerMinute then (State(s.hits, global), GlobalFull(Wait(global, now)))
    else
      var hits := Opened(s.hits, c, key, now);
      var h := hits.at[key];
      if h.used + weight > Budget(c, key) then (State(hits, global), KeyFull(Wait(h, now)))
      else (State(hits.(at := hits.at[key := h.(used := h.used + weight)]), global.(used := global.used + weight)),
        Admit)
  }

  // ---- the table ----

  /** Keys are listed oldest window first. */
  ghost predicate Ordered(hits: Hits)
    requires hits.Good()
  {
    forall i, j :: 0 <= i < j < |hits.keys| ==> hits.at[hits.keys[i]].start <= hits.at[hits.keys[j]].start
  }

  ghost predicate Begun(hits: Hits, clock: int) {
    forall k :: k in hits.at ==> hits.at[k].start <= clock
  }

  lemma {:induction false} RestrictSorted<K(!new)>(keys: seq<K>, s: set<K>, at: map<K, Window>)
    requires forall k :: k in keys ==> k in at
    requires forall i, j :: 0 <= i < j < |keys| ==> at[keys[i]].start <= at[keys[j]].start
    ensures var r := Restrict(keys, s);
      && (forall k :: k in r ==> k in keys)
      && (forall i, j :: 0 <= i < j < |r| ==> at[r[i]].start <= at[r[j]].start)
  {
    RestrictIn(keys, s);
    if keys != [] {
      var n := |keys| - 1;
      RestrictIn(keys[..n], s);
      RestrictSorted(keys[..n], s, at);
      var r := Restrict(keys[..n], s);
      assert Restrict(keys, s) == r + if keys[n] in s then [keys[n]] else [];
      hide Restrict;
      forall i | 0 <= i < |r| ensures at[r[i]].start <= at[keys[n]].start {
        assert r[i] in keys[..n];
        var m :| 0 <= m < n && keys[m] == r[i];
      }
    }
  }

  lemma OnlyOrdered(hits: Hits, s: set<Key>)
    requires hits.Good() && Ordered(hits)
    ensures hits.Only(s).Good() && Ordered(hits.Only(s))
  {
    OnlyGood(hits, s);
    RestrictSorted(hits.keys, s, hits.at);
    RestrictIn(hits.keys, s);
  }

  /** `t` is `hits` without some of its oldest windows: none gone is younger than one that stays. */
  ghost predicate OldestGone(hits: Hits, t: Hits) {
    && (forall k :: k in t.at ==> k in hits.at && t.at[k] == hits.at[k])
    && (forall k, l :: k in hits.at && k !in t.at && l in t.at ==> hits.at[k].start <= hits.at[l].start)
  }

  lemma FirstIsOldest(hits: Hits)
    requires hits.Good() && Ordered(hits) && hits.keys != []
    ensures var rest := hits.Without(hits.keys[0]);
      rest.Good() && Ordered(rest) && OldestGone(hits, rest) && rest.keys == hits.keys[1..]
  {
    WithoutFirst(hits);
    OnlyOrdered(hits, hits.at.Keys - {hits.keys[0]});
    forall l | l in hits.at ensures hits.at[hits.keys[0]].start <= hits.at[l].start {
      assert l in hits.keys;
      var i :| 0 <= i < |hits.keys| && hits.keys[i] == l;
    }
  }

  lemma OldestGoneTwice(a: Hits, b: Hits, c: Hits)
    requires OldestGone(a, b) && OldestGone(b, c)
    ensures OldestGone(a, c)
  {
  }

  /** Room is made by taking out the oldest windows; the order is kept, and there is room. */
  lemma {:induction false} EvictTakesOldest(hits: Hits, maxKeys: nat)
    requires hits.Good() && Ordered(hits)
    ensures var t := Evict(hits, maxKeys);
      Ordered(t) && |t.keys| == Min(|hits.keys|, Max(maxKeys, 1) - 1) && OldestGone(hits, t)
      && (|hits.keys| < maxKeys ==> t == hits)
    decreases |hits.keys|
  {
    if |hits.keys| > 0 && |hits.keys| >= maxKeys {
      var rest := hits.Without(hits.keys[0]);
      FirstIsOldest(hits);
      EvictTakesOldest(rest, maxKeys);
      OldestGoneTwice(hits, rest, Evict(rest, maxKeys));
      assert Evict(hits, maxKeys) == Evict(rest, maxKeys);
      hide *;
    }
  }

  ghost predicate TableGood(hits: Hits, c: Config, clock: int) {
    hits.Good() && Ordered(hits) && Begun(hits, clock) && |hits.keys| <= Max(c.maxKeys, 1)
  }

  lemma PutOrdered(room: Hits, key: Key, now: Millis)
    requires room.Good() && Ordered(room) && Begun(room, now) && key !in room.at
    ensures room.Put(key, Window(now, 0)).Good() && Ordered(room.Put(key, Window(now, 0)))
      && Begun(room.Put(key, Window(now, 0)), now)
  {
    PutGood(room, key, Window(now, 0));
    assert forall i :: 0 <= i < |room.keys| ==> room.keys[i] in room.at;
  }

  lemma OpenedGood(hits: Hits, c: Config, key: Key, now: Millis)
    requires TableGood(hits, c, now)
    ensures var t := Opened(hits, c, key, now);
      && TableGood(t, c, now)
      && (forall k :: k in t.at && k != key ==> k in hits.at && t.at[k] == hits.at[k])
      && !Over(t.at[key], now)
      && (t.at[key] == Window(now, 0) || (key in hits.at && t.at[key] == hits.at[key]))
  {
    if key !in hits.at || Over(hits.at[key], now) {
      OnlyOrdered(hits, hits.at.Keys - {key});
      EvictTakesOldest(hits.Without(key), c.maxKeys);
      var room := Evict(hits.Without(key), c.maxKeys);
      hide Evict, Ordered;
      PutOrdered(room, key, now);
    }
  }

  /** Opening a window evicts only keys whose windows are no younger than any other that stays. */
  lemma OpenedTakesOldest(hits: Hits, c: Config, key: Key, now: Millis, gone: Key, left: Key)
    requires TableGood(hits, c, now) && gone in hits.at && left in hits.at && left != key
    requires gone !in Opened(hits, c, key, now).at && left in Opened(hits, c, key, now).at
    ensures hits.at[gone].start <= hits.at[left].start
  {
    assert hits.Good() && Ordered(hits);
    hide Evict, Ordered, Opened, TableGood, Begun;
    OnlyOrdered(hits, hits.at.Keys - {key});
    EvictTakesOldest(hits.Without(key), c.maxKeys);
    OpenedKeys(hits, c, key, now);
    StaysWithout(hits, key);
  }

  lemma StaysWithout(hits: Hits, key: Key)
    ensures forall k :: k in hits.Without(key).at <==> k in hits.at && k != key
    ensures forall k :: k in hits.Without(key).at ==> hits.Without(key).at[k] == hits.at[k]
  {
  }

  /** A window opened anew comes after the evictions. */
  lemma OpenedKeys(hits: Hits, c: Config, key: Key, now: Millis)
    requires hits.Good()
    ensures hits.Without(key).Good()
    ensures var t := Opened(hits, c, key, now);
      t == hits || t.at.Keys == Evict(hits.Without(key), c.maxKeys).at.Keys + {key}
  {
    OnlyGood(hits, hits.at.Keys - {key});
    hide Evict;
  }

  /** The order of the table and its size survive every call. */
  lemma CallGood(s: State, c: Config, key: Key, weight: nat, now: Millis)
    requires TableGood(s.hits, c, now)
    ensures TableGood(Call(s, c, key, weight, now).0.hits, c, now)
  {
    var hits := Opened(s.hits, c, key, now);
    CallHits(s, c, key, weight, now);
    hide Call, Opened, TableGood;
    OpenedGood(s.hits, c, key, now);
    UsedGood(hits, c, key, weight, now);
  }

  /** The table a call leaves. */
  lemma CallHits(s: State, c: Config, key: Key, weight: nat, now: Millis)
    requires s.hits.Good()
    ensures var t, hits := Call(s, c, key, weight, now).0.hits, Opened(s.hits, c, key, now);
      t == s.hits || t == hits || t == hits.(at := hits.at[key := hits.at[key].(used := hits.at[key].used + weight)])
  {
    hide Opened;
  }

  lemma UsedGood(hits: Hits, c: Config, key: Key, weight: nat, now: Millis)
    requires TableGood(hits, c, now) && key in hits.at
    ensures TableGood(hits.(at := hits.at[key := hits.at[key].(used := hits.at[key].used + weight)]), c, now)
  {
  }

  /** A call of one key leaves the window of every other key as it was, or evicts it for room. */
  lemma OtherKeys(s: State, c: Config, key: Key, weight: nat, now: Millis, k: Key)
    requires TableGood(s.hits, c, now) && k != key
    ensures var t := Call(s, c, key, weight, now).0.hits;
      k in t.at ==> k in s.hits.at && t.at[k] == s.hits.at[k]
  {
    OpenedGood(s.hits, c, key, now);
  }
}
