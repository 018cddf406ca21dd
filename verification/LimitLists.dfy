/** The lists the limiter keeps are parts of the history, named by the numbers of their entries: those of
    one wallet, or of everyone, that are not cancelled and no older than some time. Pruning moves that time
    forward and nothing else. */
module LimitLists {
  import opened Basics
  import opened Limits

  predicate Sorted(h: History) {
    forall i, j :: 0 <= i < j < |h| ==> h[i].at <= h[j].at
  }

  /** The numbers of the entries that match, in order, from time `from` on. */
  function Select(h: History, who: Who, from: int): (ids: seq<nat>)
    ensures forall k :: 0 <= k < |ids| ==> ids[k] < |h|
  {
    if h == [] then []
    else Select(h[..|h| - 1], who, from)
         + if Matches(h[|h| - 1], who) && from <= h[|h| - 1].at then [|h| - 1] else []
  }

  /** A list that was pruned no later than at `clock`. */
  ghost predicate Pruned(h: History, who: Who, clock: int, ids: seq<nat>) {
    exists from: int :: from <= clock - DAY_MS && ids == Select(h, who, from)
  }

  function CountIds(h: History, ids: seq<nat>, from: int): nat
    requires forall k :: 0 <= k < |ids| ==> ids[k] < |h|
  {
    if ids == [] then 0
    else CountIds(h, ids[..|ids| - 1], from) + if from <= h[ids[|ids| - 1]].at then 1 else 0
  }

  function BookedIds(h: History, ids: seq<nat>, from: int): nat
    requires forall k :: 0 <= k < |ids| ==> ids[k] < |h|
  {
    if ids == [] then 0
    else BookedIds(h, ids[..|ids| - 1], from) + if from <= h[ids[|ids| - 1]].at then h[ids[|ids| - 1]].lamports else 0
  }

  lemma {:induction false} SelectMeans(h: History, who: Who, from: int)
    ensures forall k :: 0 <= k < |Select(h, who, from)| ==>
              var i := Select(h, who, from)[k]; Matches(h[i], who) && from <= h[i].at
    ensures forall j, k :: 0 <= j < k < |Select(h, who, from)| ==> Select(h, who, from)[j] < Select(h, who, from)[k]
    ensures forall i :: 0 <= i < |h| && Matches(h[i], who) && from <= h[i].at ==> i in Select(h, who, from)
  {
    if h != [] {
      SelectMeans(h[..|h| - 1], who, from);
    }
  }

  lemma {:induction false} SelectNone(h: History, who: Who, later: int)
    requires forall i :: 0 <= i < |h| ==> h[i].at < later
    ensures Select(h, who, later) == []
  {
    if h != [] {
      SelectNone(h[..|h| - 1], who, later);
    }
  }

  lemma SelectLast(h: History, who: Who, from: int)
    requires h != []
    ensures var rest := Select(h[..|h| - 1], who, from);
            if Matches(h[|h| - 1], who) && from <= h[|h| - 1].at
            then Select(h, who, from) == rest + [|h| - 1] && Select(h, who, from)[..|rest|] == rest
            else Select(h, who, from) == rest
  {
  }

  /** Pruning: of a list selected from `from` on, the entries from `later` on are its tail. */
  lemma {:induction false} SelectTail(h: History, who: Who, from: int, later: int) returns (k: nat)
    requires Sorted(h) && from <= later
    ensures k <= |Select(h, who, from)| && Select(h, who, from)[k..] == Select(h, who, later)
    ensures forall j :: 0 <= j < k ==> h[Select(h, who, from)[j]].at < later
  {
    if h == [] {
      k := 0;
    } else if h[|h| - 1].at < later {
      SelectNone(h, who, later);
      k := |Select(h, who, from)|;
    } else {
      k := SelectTail(h[..|h| - 1], who, from, later);
      TailLonger(h, who, from, later, k);
    }
  }

  lemma DropOfLonger(ids: seq<nat>, x: nat, k: nat)
    requires k <= |ids|
    ensures (ids + [x])[k..] == ids[k..] + [x]
    ensures forall j :: 0 <= j < k ==> (ids + [x])[j] == ids[j]
  {
  }

  lemma TailLonger(h: History, who: Who, from: int, later: int, k: nat)
    requires h != [] && from <= later <= h[|h| - 1].at
    requires var all := Select(h[..|h| - 1], who, from);
             && k <= |all| && all[k..] == Select(h[..|h| - 1], who, later)
             && (forall j :: 0 <= j < k ==> h[..|h| - 1][all[j]].at < later)
    ensures k <= |Select(h, who, from)| && Select(h, who, from)[k..] == Select(h, who, later)
    ensures forall j :: 0 <= j < k ==> h[Select(h, who, from)[j]].at < later
  {
    var n := |h| - 1;
    var all := Select(h[..n], who, from);
    SelectLast(h, who, from);
    SelectLast(h, who, later);
    hide Select;
    assert forall j :: 0 <= j < k ==> h[..n][all[j]] == h[all[j]];
    if Matches(h[n], who) {
      DropOfLonger(all, n, k);
    }
  }

  lemma {:induction false} IdsOfPrefix(h: History, e: Entry, ids: seq<nat>, from: int)
    requires forall k :: 0 <= k < |ids| ==> ids[k] < |h|
    ensures CountIds(h + [e], ids, from) == CountIds(h, ids, from)
    ensures BookedIds(h + [e], ids, from) == BookedIds(h, ids, from)
  {
    if ids != [] {
      IdsOfPrefix(h, e, ids[..|ids| - 1], from);
    }
  }

  lemma IdsLast(h: History, ids: seq<nat>, x: nat, from: int)
    requires x < |h| && forall k :: 0 <= k < |ids| ==> ids[k] < |h|
    ensures CountIds(h, ids + [x], from) == CountIds(h, ids, from) + if from <= h[x].at then 1 else 0
    ensures BookedIds(h, ids + [x], from) == BookedIds(h, ids, from) + if from <= h[x].at then h[x].lamports else 0
  {
    assert (ids + [x])[..|ids|] == ids;
  }

  /** A list pruned at `from` answers for every window that starts no earlier. */
  lemma {:induction false} ListAnswers(h: History, who: Who, from: int, since: int, now: int)
    requires from <= since && NotBefore(h, now)
    ensures CountIds(h, Select(h, who, from), since) == Count(h, who, since, now)
    ensures BookedIds(h, Select(h, who, from), since) == Booked(h, who, since, now)
  {
    if h != [] {
      var n := |h| - 1;
      var rest := Select(h[..n], who, from);
      ListAnswers(h[..n], who, from, since, now);
      IdsOfPrefix(h[..n], h[n], rest, since);
      assert h[..n] + [h[n]] == h;
      SelectLast(h, who, from);
      if Matches(h[n], who) && from <= h[n].at {
        IdsLast(h, rest, n, since);
      }
      hide Select, CountIds, BookedIds;
    }
  }

  lemma SelectAppend(h: History, e: Entry, who: Who, from: int)
    ensures Select(h + [e], who, from) == Select(h, who, from) + if Matches(e, who) && from <= e.at then [|h|] else []
  {
    assert (h + [e])[..|h|] == h;
  }

  /** A commit changes what an entry is worth, not where it is listed. */
  lemma {:induction false} SelectCommit(h: History, i: nat, e: Entry, who: Who, from: int)
    requires i < |h| && e.wallet == h[i].wallet && e.at == h[i].at && e.cancelled == h[i].cancelled
    ensures Select(h[i := e], who, from) == Select(h, who, from)
  {
    var n := |h| - 1;
    if i == n {
      assert h[i := e][..n] == h[..n];
    } else {
      assert h[i := e][..n] == h[..n][i := e];
      SelectCommit(h[..n], i, e, who, from);
    }
  }

  lemma {:induction false} SelectCancel(h: History, i: nat, e: Entry, who: Who, from: int)
    requires i < |h| && e.wallet == h[i].wallet && e.at == h[i].at && e.cancelled
    ensures Select(h[i := e], who, from) == Without(Select(h, who, from), i)
  {
    var n := |h| - 1;
    var rest := Select(h[..n], who, from);
    SelectLast(h, who, from);
    SelectLast(h[i := e], who, from);
    WithoutLast<nat>(rest, n, i);
    if i == n {
      assert h[i := e][..n] == h[..n];
      WithoutAbsent<nat>(rest, n);
    } else {
      assert h[i := e][..n] == h[..n][i := e];
      SelectCancel(h[..n], i, e, who, from);
    }
    hide Select, Without;
  }

  /** The front loop of a prune stops where the last day begins. */
  lemma PruneStops(h: History, who: Who, from: int, now: int, k: nat)
    requires Sorted(h) && from <= now - DAY_MS && k <= |Select(h, who, from)|
    requires forall j :: 0 <= j < k ==> now - h[Select(h, who, from)[j]].at > DAY_MS
    requires k < |Select(h, who, from)| ==> now - h[Select(h, who, from)[k]].at <= DAY_MS
    ensures Select(h, who, from)[k..] == Select(h, who, now - DAY_MS)
  {
    var m := SelectTail(h, who, from, now - DAY_MS);
    SelectMeans(h, who, now - DAY_MS);
    hide Select;
    var ids := Select(h, who, from);
    assert m < |ids| ==> ids[m] == ids[m..][0];
  }

  /** Pruning a pruned list at `now` leaves exactly the entries of the last day, and they answer for it. */
  lemma PrunedAgain(h: History, who: Who, clock: int, now: int, ids: seq<nat>, k: nat)
    requires Sorted(h) && NotBefore(h, now) && Pruned(h, who, clock, ids) && clock <= now && k <= |ids|
    requires forall j :: 0 <= j < |ids| ==> ids[j] < |h|
    requires forall j :: 0 <= j < k ==> now - h[ids[j]].at > DAY_MS
    requires k < |ids| ==> now - h[ids[k]].at <= DAY_MS
    ensures ids[k..] == Select(h, who, now - DAY_MS) && Pruned(h, who, now, ids[k..])
    ensures CountIds(h, ids[k..], now - HOUR_MS) == Count(h, who, now - HOUR_MS, now)
    ensures BookedIds(h, ids[k..], now - DAY_MS) == Booked(h, who, now - DAY_MS, now)
  {
    hide Select, CountIds, BookedIds, Count, Booked, Sorted, NotBefore;
    var later := now - DAY_MS;
    var from: int :| from <= clock - DAY_MS && ids == Select(h, who, from);
    PruneStops(h, who, from, now, k);
    ListAnswers(h, who, later, now - HOUR_MS, now);
    ListAnswers(h, who, later, later, now);
  }

  lemma PrunedReserve(h: History, e: Entry, who: Who, clock: int, ids: seq<nat>)
    requires Pruned(h, who, clock, ids) && clock - DAY_MS <= e.at
    ensures Pruned(h + [e], who, clock, ids + if Matches(e, who) then [|h|] else [])
  {
    var from: int :| from <= clock - DAY_MS && ids == Select(h, who, from);
    SelectAppend(h, e, who, from);
  }

  lemma PrunedCommit(h: History, i: nat, e: Entry, who: Who, clock: int, ids: seq<nat>)
    requires i < |h| && e.wallet == h[i].wallet && e.at == h[i].at && e.cancelled == h[i].cancelled
    requires Pruned(h, who, clock, ids)
    ensures Pruned(h[i := e], who, clock, ids)
  {
    var from: int :| from <= clock - DAY_MS && ids == Select(h, who, from);
    SelectCommit(h, i, e, who, from);
  }

  lemma PrunedCancel(h: History, i: nat, e: Entry, who: Who, clock: int, ids: seq<nat>)
    requires i < |h| && e.wallet == h[i].wallet && e.at == h[i].at && e.cancelled
    requires Pruned(h, who, clock, ids)
    ensures Pruned(h[i := e], who, clock, Without(ids, i))
  {
    var from: int :| from <= clock - DAY_MS && ids == Select(h, who, from);
    SelectCancel(h, i, e, who, from);
  }

  lemma PrunedMeans(h: History, who: Who, clock: int, ids: seq<nat>)
    requires Pruned(h, who, clock, ids)
    ensures forall j, k :: 0 <= j < k < |ids| ==> ids[j] < ids[k]
    ensures forall k :: 0 <= k < |ids| ==> ids[k] < |h| && Matches(h[ids[k]], who)
  {
    var from: int :| from <= clock - DAY_MS && ids == Select(h, who, from);
    SelectMeans(h, who, from);
  }
}
