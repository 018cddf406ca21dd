/** The limiter as the program keeps it: one list of shared, mutable entries per wallet and one for
    everyone, pruned in place. Its answers are those of the ideal limiter over the whole history. */
module RateLimiter {
  import opened Basics
  import L = Limits
  import Lists = LimitLists

  class Cell {
    ghost const id: nat
    ghost const wallet: Address
    const at: Millis
    var lamports: nat
    var open: bool
    ghost var cancelled: bool

    constructor (ghost id: nat, ghost wallet: Address, at: Millis, lamports: nat)
      ensures this.id == id && Value() == L.Entry(wallet, at, lamports, true, false)
    {
      this.id, this.wallet, this.at, this.lamports := id, wallet, at, lamports;
      open, cancelled := true, false;
    }

    ghost function Value(): L.Entry
      reads this
    {
      L.Entry(wallet, at, lamports, open, cancelled)
    }
  }

  ghost function Ids(cells: seq<Cell>): (ids: seq<nat>)
    ensures |ids| == |cells|
  {
    seq(|cells|, k requires 0 <= k < |cells| => cells[k].id)
  }

  ghost function Values(cells: seq<Cell>): (h: L.History)
    reads cells
    ensures |h| == |cells|
  {
    seq(|cells|, k requires 0 <= k < |cells| reads cells => cells[k].Value())
  }

  /** Each cell of `cells` is the one of that number in `hist`. */
  ghost predicate Among(cells: seq<Cell>, hist: seq<Cell>) {
    forall k :: 0 <= k < |cells| ==> cells[k].id < |hist| && hist[cells[k].id] == cells[k]
  }

  ghost predicate Numbered(hist: seq<Cell>) {
    forall k :: 0 <= k < |hist| ==> hist[k].id == k
  }

  // ---- the folds over a list ----

  function CountSince(cells: seq<Cell>, now: Millis, window: nat): nat {
    if cells == [] then 0
    else CountSince(cells[..|cells| - 1], now, window) + if now - cells[|cells| - 1].at <= window then 1 else 0
  }

  function LamportsSince(cells: seq<Cell>, now: Millis, window: nat): nat
    reads cells
  {
    if cells == [] then 0
    else LamportsSince(cells[..|cells| - 1], now, window)
         + if now - cells[|cells| - 1].at <= window then cells[|cells| - 1].lamports else 0
  }

  lemma {:induction false} FoldsAreById(cells: seq<Cell>, hist: seq<Cell>, now: Millis, window: nat)
    requires Among(cells, hist)
    ensures CountSince(cells, now, window) == Lists.CountIds(Values(hist), Ids(cells), now - window)
    ensures LamportsSince(cells, now, window) == Lists.BookedIds(Values(hist), Ids(cells), now - window)
  {
    if cells != [] {
      FoldsAreById(cells[..|cells| - 1], hist, now, window);
      assert Ids(cells)[..|cells| - 1] == Ids(cells[..|cells| - 1]);
      assert hist[cells[|cells| - 1].id].Value() == cells[|cells| - 1].Value();
    }
  }

  /** Drops what is more than a day old from the front. */
  method Prune(cells: seq<Cell>, now: Millis) returns (kept: seq<Cell>, ghost k: nat)
    ensures k <= |cells| && kept == cells[k..]
    ensures forall j :: 0 <= j < k ==> now - cells[j].at > L.DAY_MS
    ensures k < |cells| ==> now - cells[k].at <= L.DAY_MS
  {
    var i := 0;
    while i < |cells| && now - cells[i].at > L.DAY_MS
      invariant i <= |cells|
      invariant forall j :: 0 <= j < i ==> now - cells[j].at > L.DAY_MS
    {
      i := i + 1;
    }
    return cells[i..], i;
  }

  /** Finds `cell` and splices it out. */
  method RemoveFrom(cells: seq<Cell>, cell: Cell, ghost hist: seq<Cell>) returns (rest: seq<Cell>)
    requires Numbered(hist) && Among(cells, hist) && Among([cell], hist)
    requires forall j, k :: 0 <= j < k < |cells| ==> cells[j].id < cells[k].id
    ensures Ids(rest) == Without(Ids(cells), cell.id) && Among(rest, hist)
  {
    assert hist[[cell][0].id] == cell;
    for i := 0 to |cells|
      invariant forall j :: 0 <= j < i ==> cells[j] != cell
    {
      if cells[i] == cell {
        WithoutIsSplice(Ids(cells), i);
        rest := cells[..i] + cells[i + 1..];
        assert Ids(rest) == Ids(cells)[..i] + Ids(cells)[i + 1..];
        return;
      }
    }
    assert forall j :: 0 <= j < |cells| ==> cells[j].id != cell.id;
    WithoutAbsent(Ids(cells), cell.id);
    return cells;
  }

  datatype Reservation = Reservation(cell: Cell, wallet: Address)

  function Get(lists: map<Address, seq<Cell>>, w: Address): seq<Cell> {
    if w in lists then lists[w] else []
  }

  /** A list is made of cells of the history, and is a pruned list of whom it is for. */
  ghost predicate ListGood(h: L.History, hist: seq<Cell>, clock: int, who: L.Who, cells: seq<Cell>) {
    Among(cells, hist) && Lists.Pruned(h, who, clock, Ids(cells))
  }

  ghost predicate ListsGood(h: L.History, hist: seq<Cell>, clock: int, lists: map<Address, seq<Cell>>) {
    forall w :: ListGood(h, hist, clock, L.One(w), Get(lists, w))
  }

  ghost predicate HistoryGood(h: L.History, hist: seq<Cell>, clock: int) {
    Numbered(hist) && |h| == |hist| && Lists.Sorted(h) && L.NotBefore(h, clock)
  }

  // ---- what each operation does to a list ----

  lemma StoreLists(h: L.History, hist: seq<Cell>, clock: int, lists: map<Address, seq<Cell>>, w: Address,
                   cells: seq<Cell>)
    requires forall v :: v != w ==> ListGood(h, hist, clock, L.One(v), Get(lists, v))
    requires ListGood(h, hist, clock, L.One(w), cells)
    ensures ListsGood(h, hist, clock, lists[w := cells])
    ensures cells == [] ==> ListsGood(h, hist, clock, lists - {w})
  {
    forall v ensures v != w ==> Get(lists[w := cells], v) == Get(lists, v) == Get(lists - {w}, v) {
    }
  }

  lemma ListLater(h: L.History, hist: seq<Cell>, clock: int, now: int, who: L.Who, cells: seq<Cell>)
    requires ListGood(h, hist, clock, who, cells) && clock <= now
    ensures ListGood(h, hist, now, who, cells)
  {
  }

  lemma IdsAppend(cells: seq<Cell>, cell: Cell)
    ensures Ids(cells + [cell]) == Ids(cells) + [cell.id]
  {
  }

  lemma ListReserved(h: L.History, hist: seq<Cell>, clock: int, who: L.Who, cells: seq<Cell>, cell: Cell, e: L.Entry)
    requires ListGood(h, hist, clock, who, cells) && |h| == |hist| && cell.id == |hist| && e.at == clock
    ensures ListGood(h + [e], hist + [cell], clock, who, cells + if L.Matches(e, who) then [cell] else [])
  {
    Lists.PrunedReserve(h, e, who, clock, Ids(cells));
    if L.Matches(e, who) {
      IdsAppend(cells, cell);
    } else {
      assert cells + [] == cells && Ids(cells) + [] == Ids(cells);
    }
  }

  lemma ListCommitted(h: L.History, hist: seq<Cell>, clock: int, who: L.Who, cells: seq<Cell>, i: nat, e: L.Entry)
    requires ListGood(h, hist, clock, who, cells) && i < |h|
    requires e.wallet == h[i].wallet && e.at == h[i].at && e.cancelled == h[i].cancelled
    ensures ListGood(h[i := e], hist, clock, who, cells)
  {
    Lists.PrunedCommit(h, i, e, who, clock, Ids(cells));
  }

  lemma ListCancelled(h: L.History, hist: seq<Cell>, clock: int, who: L.Who, cells: seq<Cell>, i: nat, e: L.Entry,
                      rest: seq<Cell>)
    requires ListGood(h, hist, clock, who, cells) && i < |h|
    requires e.wallet == h[i].wallet && e.at == h[i].at && e.cancelled
    requires Among(rest, hist) && Ids(rest) == Without(Ids(cells), i)
    ensures ListGood(h[i := e], hist, clock, who, rest)
  {
    Lists.PrunedCancel(h, i, e, who, clock, Ids(cells));
  }

  /** The list of a wallet the cancelled entry is not of. */
  lemma ListUnaffected(h: L.History, hist: seq<Cell>, clock: int, w: Address, cells: seq<Cell>, i: nat, e: L.Entry)
    requires ListGood(h, hist, clock, L.One(w), cells) && i < |h| && h[i].wallet != w
    requires e.wallet == h[i].wallet && e.at == h[i].at && e.cancelled
    ensures ListGood(h[i := e], hist, clock, L.One(w), cells)
  {
    Lists.PrunedMeans(h, L.One(w), clock, Ids(cells));
    WithoutAbsent(Ids(cells), i);
    ListCancelled(h, hist, clock, L.One(w), cells, i, e, cells);
  }

  lemma Increasing(h: L.History, hist: seq<Cell>, clock: int, who: L.Who, cells: seq<Cell>)
    requires ListGood(h, hist, clock, who, cells)
    ensures forall j, k :: 0 <= j < k < |cells| ==> cells[j].id < cells[k].id
  {
    Lists.PrunedMeans(h, who, clock, Ids(cells));
    assert forall k :: 0 <= k < |cells| ==> Ids(cells)[k] == cells[k].id;
  }

  lemma TailIds(hist: seq<Cell>, cells: seq<Cell>, k: nat)
    requires Among(cells, hist) && k <= |cells|
    ensures Ids(cells[k..]) == Ids(cells)[k..] && Among(cells[k..], hist)
    ensures forall j :: 0 <= j < |cells| ==>
      Ids(cells)[j] < |Values(hist)| && Values(hist)[Ids(cells)[j]].at == cells[j].at
  {
  }

  /** One list, pruned: what `Prune` returns is a pruned list again, and the folds over it are exact. */
  lemma FoldsExact(hist: seq<Cell>, clock: int, cells: seq<Cell>, kept: seq<Cell>, k: nat, who: L.Who, now: Millis)
    requires HistoryGood(Values(hist), hist, clock) && ListGood(Values(hist), hist, clock, who, cells) && clock <= now
    requires k <= |cells| && kept == cells[k..]
    requires forall j :: 0 <= j < k ==> now - cells[j].at > L.DAY_MS
    requires k < |cells| ==> now - cells[k].at <= L.DAY_MS
    ensures ListGood(Values(hist), hist, now, who, kept)
    ensures CountSince(kept, now, L.HOUR_MS) == L.Count(Values(hist), who, now - L.HOUR_MS, now)
    ensures LamportsSince(kept, now, L.DAY_MS) == L.Booked(Values(hist), who, now - L.DAY_MS, now)
  {
    TailIds(hist, cells, k);
    assert L.NotBefore(Values(hist), now) && Lists.Sorted(Values(hist))
      && Lists.Pruned(Values(hist), who, clock, Ids(cells));
    hide *;
    Lists.PrunedAgain(Values(hist), who, clock, now, Ids(cells), k);
    FoldsAreById(kept, hist, now, L.HOUR_MS);
    FoldsAreById(kept, hist, now, L.DAY_MS);
    FoldsDone(hist, kept, who, now);
  }

  lemma FoldsDone(hist: seq<Cell>, kept: seq<Cell>, who: L.Who, now: int)
    requires Among(kept, hist) && Lists.Pruned(Values(hist), who, now, Ids(kept))
    ensures ListGood(Values(hist), hist, now, who, kept)
  {
  }

  lemma ValuesAppend(hist: seq<Cell>, cell: Cell)
    ensures Values(hist + [cell]) == Values(hist) + [cell.Value()]
  {
  }

  lemma HistoryReserved(h: L.History, hist: seq<Cell>, clock: int, cell: Cell, e: L.Entry)
    requires HistoryGood(h, hist, clock) && cell.id == |hist| && e.at == clock
    ensures HistoryGood(h + [e], hist + [cell], clock)
  {
  }

  lemma HistoryUpdated(h: L.History, hist: seq<Cell>, clock: int, i: nat, e: L.Entry)
    requires HistoryGood(h, hist, clock) && i < |h| && e.at == h[i].at
    ensures HistoryGood(h[i := e], hist, clock)
  {
  }

  class Limiter {
    const config: L.Config
    var byWallet: map<Address, seq<Cell>>
    var global: seq<Cell>
    ghost var hist: seq<Cell>
    ghost var clock: int

    ghost predicate Valid()
      reads this, hist
    {
      && HistoryGood(Values(hist), hist, clock)
      && ListGood(Values(hist), hist, clock, L.Everyone, global)
      && ListsGood(Values(hist), hist, clock, byWallet)
    }

    constructor (config: L.Config)
      ensures Valid() && hist == [] && this.config == config && clock == 0
    {
      this.config, byWallet, global := config, map[], [];
      hist, clock := [], 0;
      new;
      assert Values(hist) == [] && Ids([]) == [];
      forall who ensures Lists.Pruned([], who, 0, []) {
        assert Lists.Select([], who, -L.DAY_MS) == [];
      }
    }

    /** One of the lists, pruned; nothing is stored yet. */
    method PruneList(cells: seq<Cell>, ghost who: L.Who, now: Millis) returns (kept: seq<Cell>)
      requires Valid() && clock <= now && ListGood(Values(hist), hist, clock, who, cells)
      ensures ListGood(Values(hist), hist, now, who, kept) && (cells == [] ==> kept == [])
      ensures CountSince(kept, now, L.HOUR_MS) == L.Count(Values(hist), who, now - L.HOUR_MS, now)
      ensures LamportsSince(kept, now, L.DAY_MS) == L.Booked(Values(hist), who, now - L.DAY_MS, now)
    {
      ghost var k;
      kept, k := Prune(cells, now);
      FoldsExact(hist, clock, cells, kept, k, who, now);
    }

    /** Stores the pruned lists. */
    method Store(wallet: Address, mine: seq<Cell>, all: seq<Cell>, now: Millis)
      requires Valid() && clock <= now
      requires ListGood(Values(hist), hist, now, L.One(wallet), mine)
        && ListGood(Values(hist), hist, now, L.Everyone, all)
      requires wallet !in byWallet ==> mine == []
      modifies this`byWallet, this`global, this`clock
      ensures Valid() && clock == now
    {
      ghost var h := Values(hist);
      forall w ensures ListGood(h, hist, now, L.One(w), Get(byWallet, w)) {
        ListLater(h, hist, clock, now, L.One(w), Get(byWallet, w));
      }
      StoreLists(h, hist, now, byWallet, wallet, mine);
      hide Values, ListGood;
      if wallet in byWallet {
        byWallet := byWallet[wallet := mine];
      }
      global := all;
      clock := now;
    }

    /** Usage as the pruned lists give it is usage over everything ever reserved. */
    method Snapshot(wallet: Address, now: Millis) returns (u: L.Usage)
      requires Valid() && clock <= now
      modifies this`byWallet, this`global, this`clock
      ensures Valid() && clock == now
      ensures u == L.Snapshot(Values(hist), wallet, now)
    {
      hide Values, ListGood, HistoryGood, CountSince, LamportsSince, L.Count, L.Booked;
      var walletEntries := PruneList(Get(byWallet, wallet), L.One(wallet), now);
      var all := PruneList(global, L.Everyone, now);
      u := L.Usage(CountSince(walletEntries, now, L.HOUR_MS), LamportsSince(walletEntries, now, L.DAY_MS),
                   CountSince(all, now, L.HOUR_MS), LamportsSince(all, now, L.DAY_MS));
      Store(wallet, walletEntries, all, now);
    }

    /** Books the worst case, or says which cap it would breach. */
    method Reserve(wallet: Address, worst: nat, now: Millis) returns (r: Result<Reservation, L.Scope>)
      requires Valid() && clock <= now
      modifies this
      ensures Valid() && clock == now
      ensures Values(hist) == L.Reserve(old(Values(hist)), config, wallet, worst, now)
      ensures L.Refused(old(Values(hist)), config, wallet, worst, now) == if r.Success? then None else Some(r.error)
      ensures if r.Success? then fresh(r.value.cell) && r.value.cell.id == |old(hist)|
        && hist == old(hist) + [r.value.cell] && Reserved(r.value) else hist == old(hist)
    {
      ghost var h := Values(hist);
      hide L.Count, L.Booked, Values, Valid;
      var usage := Snapshot(wallet, now);
      if usage.walletLastHour >= config.maxPerWalletPerHour {
        return Failure(L.Wallet);
      }
      if usage.globalLastHour >= config.maxGlobalPerHour {
        return Failure(L.Global);
      }
      if usage.walletLamportsLastDay + worst > config.maxLamportsPerWalletPerDay {
        return Failure(L.Wallet);
      }
      if usage.globalLamportsLastDay + worst > config.maxLamportsGlobalPerDay {
        return Failure(L.Global);
      }
      assert L.Refused(h, config, wallet, worst, now) == None;
      hide L.Snapshot, L.Refused;
      var cell := Book(wallet, worst, now);
      return Success(Reservation(cell, wallet));
    }

    /** Puts a new entry on both lists. */
    method Book(wallet: Address, worst: nat, now: Millis) returns (cell: Cell)
      requires Valid() && clock == now
      modifies this`byWallet, this`global, this`hist
      ensures Valid() && fresh(cell) && cell.id == |old(hist)| && hist == old(hist) + [cell]
        && Reserved(Reservation(cell, wallet))
      ensures Values(hist) == old(Values(hist)) + [L.Entry(wallet, now, worst, true, false)]
    {
      ghost var h := Values(hist);
      ghost var e := L.Entry(wallet, now, worst, true, false);
      cell := new Cell(|hist|, wallet, now, worst);
      ValuesAppend(hist, cell);
      HistoryReserved(h, hist, clock, cell, e);
      ListReserved(h, hist, clock, L.Everyone, global, cell, e);
      forall w ensures ListGood(h + [e], hist + [cell], clock, L.One(w), Get(byWallet, w) + if w == wallet then [cell]
        else []) {
        ListReserved(h, hist, clock, L.One(w), Get(byWallet, w), cell, e);
      }
      assert forall w :: w != wallet ==> Get(byWallet, w) + [] == Get(byWallet, w);
      StoreLists(h + [e], hist + [cell], clock, byWallet, wallet, Get(byWallet, wallet) + [cell]);
      hide Values, ListGood, HistoryGood, ListsGood;
      byWallet := byWallet[wallet := Get(byWallet, wallet) + [cell]];
      global := global + [cell];
      hist := hist + [cell];
    }

    /** `r` was made by this limiter. */
    ghost predicate Reserved(r: Reservation)
      reads this`hist
    {
      r.cell.id < |hist| && hist[r.cell.id] == r.cell && r.cell.wallet == r.wallet
    }

    lemma CellChanged(cell: Cell, h: L.History)
      requires Numbered(hist) && cell.id < |hist| && hist[cell.id] == cell && |h| == |hist|
      requires forall k :: 0 <= k < |hist| && hist[k] != cell ==> hist[k].Value() == h[k]
      ensures Values(hist) == h[cell.id := cell.Value()]
    {
    }

    /** The entry behind `r` closes, and perhaps changes; no other does. */
    method Close(r: Reservation, lamports: nat, ghost cancelled: bool, ghost h: L.History)
      requires Numbered(hist) && Reserved(r) && h == Values(hist)
      modifies r.cell
      ensures Values(hist) == h[r.cell.id := h[r.cell.id].(lamports := lamports, open := false, cancelled := cancelled)]
    {
      assert forall k :: 0 <= k < |hist| ==> h[k] == hist[k].Value();
      r.cell.lamports, r.cell.open, r.cell.cancelled := lamports, false, cancelled;
      CellChanged(r.cell, h);
    }

    lemma OfReservation(r: Reservation)
      requires Valid() && Reserved(r)
      ensures Numbered(hist) && |Values(hist)| == |hist| && r.cell.id < |hist|
        && Values(hist)[r.cell.id] == r.cell.Value()
      ensures r.cell.Value().lamports == r.cell.lamports
    {
    }

    /** Rewrites an open reservation to what it cost. */
    method Commit(r: Reservation, actual: nat)
      requires Valid() && Reserved(r)
      modifies r.cell
      ensures Valid() && Reserved(r)
      ensures Values(hist) == L.Commit(old(Values(hist)), r.cell.id, actual)
    {
      ghost var h, i := Values(hist), r.cell.id;
      OfReservation(r);
      if r.cell.open {
        ghost var e := h[i].(lamports := actual, open := false);
        HistoryUpdated(h, hist, clock, i, e);
        ListCommitted(h, hist, clock, L.Everyone, global, i, e);
        forall w ensures ListGood(h[i := e], hist, clock, L.One(w), Get(byWallet, w)) {
          ListCommitted(h, hist, clock, L.One(w), Get(byWallet, w), i, e);
        }
        assert h[i].cancelled == r.cell.cancelled;
        hide Values, ListGood, HistoryGood;
        Close(r, actual, r.cell.cancelled, h);
      }
    }

    /** Both lists without `r`'s entry. */
    method Unlisted(r: Reservation) returns (mine: seq<Cell>, all: seq<Cell>)
      requires Valid() && Reserved(r)
      ensures Among(mine, hist) && Ids(mine) == Without(Ids(Get(byWallet, r.wallet)), r.cell.id)
      ensures Among(all, hist) && Ids(all) == Without(Ids(global), r.cell.id)
      ensures Get(byWallet, r.wallet) == [] ==> mine == []
    {
      Increasing(Values(hist), hist, clock, L.One(r.wallet), Get(byWallet, r.wallet));
      Increasing(Values(hist), hist, clock, L.Everyone, global);
      mine := RemoveFrom(Get(byWallet, r.wallet), r.cell, hist);
      all := RemoveFrom(global, r.cell, hist);
      assert Get(byWallet, r.wallet) == [] ==> |Ids(mine)| == 0;
    }

    lemma CancelReady(r: Reservation, h: L.History, e: L.Entry, mine: seq<Cell>, all: seq<Cell>)
      requires Valid() && Reserved(r) && h == Values(hist) && e == h[r.cell.id].(cancelled := true, open := false)
      requires Among(mine, hist) && Ids(mine) == Without(Ids(Get(byWallet, r.wallet)), r.cell.id)
      requires Among(all, hist) && Ids(all) == Without(Ids(global), r.cell.id)
      ensures var t := h[r.cell.id := e];
        && HistoryGood(t, hist, clock) && ListGood(t, hist, clock, L.Everyone, all)
        && ListsGood(t, hist, clock, byWallet[r.wallet := mine])
        && (mine == [] ==> ListsGood(t, hist, clock, byWallet - {r.wallet}))
    {
      var i, w := r.cell.id, r.wallet;
      OfReservation(r);
      HistoryUpdated(h, hist, clock, i, e);
      ListCancelled(h, hist, clock, L.Everyone, global, i, e, all);
      ListCancelled(h, hist, clock, L.One(w), Get(byWallet, w), i, e, mine);
      forall v | v != w ensures ListGood(h[i := e], hist, clock, L.One(v), Get(byWallet, v)) {
        ListUnaffected(h, hist, clock, v, Get(byWallet, v), i, e);
      }
      StoreLists(h[i := e], hist, clock, byWallet, w, mine);
    }

    /** Drops an open reservation from both lists. */
    method Cancel(r: Reservation)
      requires Valid() && Reserved(r)
      modifies this`byWallet, this`global, r.cell
      ensures Valid() && Reserved(r)
      ensures Values(hist) == L.Cancel(old(Values(hist)), r.cell.id)
    {
      OfReservation(r);
      if r.cell.open {
        ghost var e := Values(hist)[r.cell.id].(cancelled := true, open := false);
        Drop(r, e);
      }
    }

    method Drop(r: Reservation, ghost e: L.Entry)
      requires Valid() && Reserved(r) && r.cell.id < |Values(hist)|
      requires e == Values(hist)[r.cell.id].(cancelled := true, open := false)
      modifies this`byWallet, this`global, r.cell
      ensures Valid() && Reserved(r)
      ensures Values(hist) == old(Values(hist))[r.cell.id := e]
    {
      hide *;
      ghost var h, lists := Values(hist), byWallet;
      OfReservation(r);
      var mine, all := Unlisted(r);
      CancelReady(r, h, e, mine, all);
      Relist(r.wallet, mine, all);
      Seal(r, h, e, lists, mine, all);
    }

    /** The last step of a cancellation: the lists are stored, the entry closes. */
    method Seal(r: Reservation, ghost h: L.History, ghost e: L.Entry, ghost lists: map<Address, seq<Cell>>,
                ghost mine: seq<Cell>, ghost all: seq<Cell>)
      requires Numbered(hist) && Reserved(r) && h == Values(hist) && r.cell.id < |h|
      requires e == h[r.cell.id].(cancelled := true, open := false) && h[r.cell.id].lamports == r.cell.lamports
      requires global == all && byWallet == if mine == [] then lists - {r.wallet} else lists[r.wallet := mine]
      requires var t := h[r.cell.id := e];
        && HistoryGood(t, hist, clock) && ListGood(t, hist, clock, L.Everyone, all)
        && ListsGood(t, hist, clock, lists[r.wallet := mine])
        && (mine == [] ==> ListsGood(t, hist, clock, lists - {r.wallet}))
      modifies r.cell
      ensures Valid() && Values(hist) == h[r.cell.id := e]
    {
      hide *;
      Close(r, r.cell.lamports, true, h);
      CancelDone(r, h, e, lists, mine, all);
    }

    /** Stores both lists; a wallet left without entries leaves the map. */
    method Relist(wallet: Address, mine: seq<Cell>, all: seq<Cell>)
      requires Get(byWallet, wallet) == [] ==> mine == []
      modifies this`byWallet, this`global
      ensures global == all
      ensures byWallet == if mine == [] then old(byWallet) - {wallet} else old(byWallet)[wallet := mine]
    {
      if wallet in byWallet {
        byWallet := byWallet[wallet := mine];
      }
      global := all;
      if |Get(byWallet, wallet)| == 0 {
        byWallet := byWallet - {wallet};
      }
    }

    lemma CancelDone(r: Reservation, h: L.History, e: L.Entry, lists: map<Address, seq<Cell>>, mine: seq<Cell>,
                     all: seq<Cell>)
      requires r.cell.id < |h| && Values(hist) == h[r.cell.id := e] && global == all
      requires byWallet == if mine == [] then lists - {r.wallet} else lists[r.wallet := mine]
      requires HistoryGood(Values(hist), hist, clock) && ListGood(Values(hist), hist, clock, L.Everyone, all)
      requires ListsGood(Values(hist), hist, clock, lists[r.wallet := mine])
      requires mine == [] ==> ListsGood(Values(hist), hist, clock, lists - {r.wallet})
      ensures Valid()
    {
    }
  }
}
