/** The RPC limiter as the program keeps it: a table and a global window, changed in place by each call. */
module RpcAdmission {
  import opened Basics
  import opened Tables
  import opened Windows
  import R = RpcLimiter

  class Limiter {
    const config: R.Config
    var hits: R.Hits
    var global: Window

    ghost predicate Valid()
      reads this
    {
      hits.Good()
    }

    ghost function Abs(): R.State
      reads this
    {
      R.State(hits, global)
    }

    constructor (config: R.Config, now: Millis)
      ensures Valid() && this.config == config && Abs() == R.State(Table([], map[]), Window(now, 0))
    {
      this.config, hits, global := config, Table([], map[]), Window(now, 0);
    }

    /** A window for `key` that is not over, made in place of the oldest ones if the table is full. */
    method Open(key: R.Key, now: Millis)
      requires Valid()
      modifies this`hits
      ensures Valid() && hits == R.Opened(old(hits), config, key, now)
    {
      if key !in hits.at || now - hits.at[key].start >= MINUTE_MS {
        OnlyGood(hits, hits.at.Keys - {key});
        hits := hits.Without(key);
        ghost var was := hits;
        while |hits.keys| > 0 && |hits.keys| >= config.maxKeys
          invariant hits.Good() && R.Evict(hits, config.maxKeys) == R.Evict(was, config.maxKeys)
          decreases |hits.keys|
        {
          WithoutFirst(hits);
          OnlyGood(hits, hits.at.Keys - {hits.keys[0]});
          hits := hits.Without(hits.keys[0]);
        }
        PutGood(hits, key, Window(now, 0));
        hits := hits.Put(key, Window(now, 0));
      }
    }

    method Admit(key: R.Key, weight: nat, now: Millis) returns (a: R.Answer)
      requires Valid()
      modifies this`hits, this`global
      ensures Valid() && (Abs(), a) == R.Call(old(Abs()), config, key, weight, now)
    {
      if now - global.start >= MINUTE_MS {
        global := Window(now, 0);
      }
      if global.used + weight > config.globalPerMinute {
        return R.GlobalFull(R.Wait(global, now));
      }
      Open(key, now);
      var h := hits.at[key];
      if h.used + weight > R.Budget(config, key) {
        return R.KeyFull(R.Wait(h, now));
      }
      hits := hits.(at := hits.at[key := h.(used := h.used + weight)]);
      global := global.(used := global.used + weight);
      return R.Admit;
    }
  }
}
