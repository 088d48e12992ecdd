/**
 The three tables the expiry sweep of `auction_tasks.py` touches (auctions,
 user currency, per-(user, item) inventory rows) as values, the effect of
 settling one expired auction, the effect of settling a whole batch in the
 order the query returned it, and what the sweep promises about that batch.
 */
module Settlement {
  import opened Totals

  type UserId = int
  type ItemId = int
  type AuctionId = int

  datatype Option<T> = None | Some(value: T)

  /** The key of one inventory row: a user and an item. */
  datatype InvKey = InvKey(user: UserId, item: ItemId)

  /** The fields of an auction row that the sweep reads. `userId` is the creator. */
  datatype Auction = Auction(
    userId: UserId,
    currentBidderId: Option<UserId>,
    currentBid: Option<int>,
    itemId: ItemId,
    quantity: nat,
    expiryTime: int)

  /**
   The state of the store: auction rows by id, each existing user's currency
   balance (the users are exactly the keys), and the inventory rows.
   */
  datatype Tables = Tables(
    auctions: map<AuctionId, Auction>,
    currency: map<UserId, int>,
    inventory: map<InvKey, nat>)

  /** The query's filter: an auction is due once its expiry time has been reached. */
  predicate IsDue(a: Auction, now: int)
  {
    a.expiryTime <= now
  }

  function DueIds(auctions: map<AuctionId, Auction>, now: int): set<AuctionId>
  {
    set id | id in auctions && IsDue(auctions[id], now)
  }

  /** A bid always comes with the id of its bidder. */
  predicate HasBidder(a: Auction)
  {
    a.currentBid.Some? ==> a.currentBidderId.Some?
  }

  /**
   Settling `a` finds every user it looks up: the creator, and the bidder
   when there is a bid.
   */
  predicate Settleable(a: Auction, users: set<UserId>)
  {
    && a.userId in users
    && HasBidder(a)
    && (a.currentBid.Some? ==> a.currentBidderId.value in users)
  }

  /** Who receives the auctioned items: the bidder if there is a bid, else the creator. */
  function Recipient(a: Auction): UserId
    requires HasBidder(a)
  {
    if a.currentBid.Some? then a.currentBidderId.value else a.userId
  }

  /** The inventory row that settling `a` adds to. */
  function RowKey(a: Auction): InvKey
    requires HasBidder(a)
  {
    InvKey(Recipient(a), a.itemId)
  }

  /** The quantity held in the row `key`, zero when there is no such row. */
  function Held(inventory: map<InvKey, nat>, key: InvKey): nat
  {
    if key in inventory then inventory[key] else 0
  }

  /**
   Adds `quantity` to the row `key`, creating the row with exactly `quantity`
   when it is absent.
   */
  function Deposit(inventory: map<InvKey, nat>, key: InvKey, quantity: nat): (r: map<InvKey, nat>)
    ensures r.Keys == inventory.Keys + {key}
    ensures r[key] == Held(inventory, key) + quantity
    ensures forall k :: k in inventory && k != key ==> r[k] == inventory[k]
  {
    if key in inventory then inventory[key := inventory[key] + quantity]
    else inventory[key := quantity]
  }

  /** One iteration of the sweep's loop: settle and delete auction `id`. */
  function Settle(t: Tables, id: AuctionId): (r: Tables)
    requires id in t.auctions && Settleable(t.auctions[id], t.currency.Keys)
    ensures r.auctions == t.auctions - {id}
    ensures r.currency.Keys == t.currency.Keys
  {
    var a := t.auctions[id];
    match a.currentBid
    case Some(bid) =>
      Tables(t.auctions - {id},
             t.currency[a.userId := t.currency[a.userId] + bid],
             Deposit(t.inventory, InvKey(a.currentBidderId.value, a.itemId), a.quantity))
    case None =>
      Tables(t.auctions - {id},
             t.currency,
             Deposit(t.inventory, InvKey(a.userId, a.itemId), a.quantity))
  }

  function Elems(order: seq<AuctionId>): set<AuctionId>
  {
    set id | id in order
  }

  predicate Distinct(order: seq<AuctionId>)
  {
    forall i, j :: 0 <= i < j < |order| ==> order[i] != order[j]
  }

  /** `order` lists the ids of `ids`, each once. */
  predicate Enumerates(order: seq<AuctionId>, ids: set<AuctionId>)
  {
    Distinct(order) && Elems(order) == ids
  }

  /** Every auction of `order` exists and can be settled, and none comes twice. */
  predicate Schedulable(t: Tables, order: seq<AuctionId>)
  {
    && Distinct(order)
    && forall id :: id in order ==> id in t.auctions && Settleable(t.auctions[id], t.currency.Keys)
  }

  /** Every due auction can be settled: the users it refers to exist. */
  predicate SweepReady(t: Tables, now: int)
  {
    forall id :: id in t.auctions && IsDue(t.auctions[id], now) ==> Settleable(t.auctions[id], t.currency.Keys)
  }

  /** Settles the auctions of `order` one after the other, first to last. */
  function SettleAll(t: Tables, order: seq<AuctionId>): (r: Tables)
    requires Schedulable(t, order)
    ensures r.auctions == t.auctions - Elems(order)
    ensures r.currency.Keys == t.currency.Keys
    decreases |order|
  {
    if order == [] then t
    else
      var prefix, last := order[..|order| - 1], order[|order| - 1];
      assert last !in prefix by {
        forall i | 0 <= i < |prefix| ensures prefix[i] != last { assert order[i] == prefix[i]; }
      }
      assert Elems(order) == Elems(prefix) + {last} by { assert order == prefix + [last]; }
      Settle(SettleAll(t, prefix), last)
  }

  // ----- what one settlement does -----

  /**
   An auction with a bid: the bidder's row for the item grows by exactly the
   auction's quantity (or is created holding it), the creator is credited
   exactly the bid, and no other row or balance changes.
   */
  lemma SettleWithBid(t: Tables, id: AuctionId)
    requires id in t.auctions && Settleable(t.auctions[id], t.currency.Keys)
    requires t.auctions[id].currentBid.Some?
    ensures var a, r := t.auctions[id], Settle(t, id);
      var key := InvKey(a.currentBidderId.value, a.itemId);
      && key in r.inventory
      && r.inventory[key] == Held(t.inventory, key) + a.quantity
      && (forall k :: k != key ==> Held(r.inventory, k) == Held(t.inventory, k) && (k in r.inventory <==> k in t.inventory))
      && r.currency[a.userId] == t.currency[a.userId] + a.currentBid.value
      && (forall u :: u in t.currency && u != a.userId ==> r.currency[u] == t.currency[u])
  {
  }

  /**
   An auction without a bid: the creator's row for the item grows by exactly
   the auction's quantity (or is created holding it), no other row changes,
   and no currency moves.
   */
  lemma SettleWithoutBid(t: Tables, id: AuctionId)
    requires id in t.auctions && Settleable(t.auctions[id], t.currency.Keys)
    requires t.auctions[id].currentBid.None?
    ensures var a, r := t.auctions[id], Settle(t, id);
      var key := InvKey(a.userId, a.itemId);
      && key in r.inventory
      && r.inventory[key] == Held(t.inventory, key) + a.quantity
      && (forall k :: k != key ==> Held(r.inventory, k) == Held(t.inventory, k) && (k in r.inventory <==> k in t.inventory))
      && r.currency == t.currency
  {
  }

  /** Both cases at once: the row `RowKey(a)` is the only one that changes. */
  lemma SettleInventory(t: Tables, id: AuctionId)
    requires id in t.auctions && Settleable(t.auctions[id], t.currency.Keys)
    ensures var a, r := t.auctions[id], Settle(t, id);
      && r.inventory.Keys == t.inventory.Keys + {RowKey(a)}
      && forall k :: Held(r.inventory, k) == Held(t.inventory, k) + (if k == RowKey(a) then a.quantity else 0)
  {
    if t.auctions[id].currentBid.Some? { SettleWithBid(t, id); } else { SettleWithoutBid(t, id); }
  }

  // ----- closed forms of a whole sweep -----

  predicate AllHaveBidders(auctions: map<AuctionId, Auction>, ids: set<AuctionId>)
  {
    forall id :: id in ids && id in auctions ==> HasBidder(auctions[id])
  }

  /** The quantities the auctions `ids` deliver into the row `key`. */
  ghost function RowShares(auctions: map<AuctionId, Auction>, ids: set<AuctionId>, key: InvKey): map<AuctionId, int>
    requires AllHaveBidders(auctions, ids)
  {
    map id | id in ids && id in auctions && RowKey(auctions[id]) == key :: auctions[id].quantity
  }

  /** The rows the auctions `ids` deliver into. */
  ghost function Targets(auctions: map<AuctionId, Auction>, ids: set<AuctionId>): set<InvKey>
    requires AllHaveBidders(auctions, ids)
  {
    set id | id in ids && id in auctions :: RowKey(auctions[id])
  }

  /** The bids of the auctions among `ids` that `user` created. */
  ghost function BidShares(auctions: map<AuctionId, Auction>, ids: set<AuctionId>, user: UserId): map<AuctionId, int>
  {
    map id | id in ids && id in auctions && auctions[id].currentBid.Some? && auctions[id].userId == user
      :: auctions[id].currentBid.value
  }

  /** The bids of all auctions among `ids` that have one. */
  ghost function AllBids(auctions: map<AuctionId, Auction>, ids: set<AuctionId>): map<AuctionId, int>
  {
    map id | id in ids && id in auctions && auctions[id].currentBid.Some? :: auctions[id].currentBid.value
  }

  /** The creators that the auctions among `ids` credit with a bid. */
  ghost function Sellers(auctions: map<AuctionId, Auction>, ids: set<AuctionId>): set<UserId>
  {
    set id | id in ids && id in auctions && auctions[id].currentBid.Some? :: auctions[id].userId
  }

  /** The inventory rows of `item`. */
  ghost function ItemRows(inventory: map<InvKey, nat>, item: ItemId): map<InvKey, int>
  {
    map k | k in inventory && k.item == item :: inventory[k]
  }

  /** The quantities of `item` held by open auctions. */
  ghost function Escrowed(auctions: map<AuctionId, Auction>, item: ItemId): map<AuctionId, int>
  {
    map id | id in auctions && auctions[id].itemId == item :: auctions[id].quantity
  }

  /** All of `item` in the store: in users' inventories and in auctions. */
  ghost function ItemTotal(t: Tables, item: ItemId): int
  {
    Total(ItemRows(t.inventory, item)) + Total(Escrowed(t.auctions, item))
  }

  lemma RowSharesAdd(auctions: map<AuctionId, Auction>, ids: set<AuctionId>, id: AuctionId, key: InvKey)
    requires id in auctions && id !in ids && AllHaveBidders(auctions, ids + {id})
    ensures Total(RowShares(auctions, ids + {id}, key))
         == Total(RowShares(auctions, ids, key)) + (if RowKey(auctions[id]) == key then auctions[id].quantity else 0)
  {
    var before := RowShares(auctions, ids, key);
    if RowKey(auctions[id]) == key {
      assert RowShares(auctions, ids + {id}, key) == before[id := auctions[id].quantity];
      TotalInsert(before, id, auctions[id].quantity);
    } else {
      assert RowShares(auctions, ids + {id}, key) == before;
    }
  }

  lemma BidSharesAdd(auctions: map<AuctionId, Auction>, ids: set<AuctionId>, id: AuctionId, user: UserId)
    requires id in auctions && id !in ids
    ensures var a := auctions[id];
      Total(BidShares(auctions, ids + {id}, user))
        == Total(BidShares(auctions, ids, user)) + (if a.currentBid.Some? && a.userId == user then a.currentBid.value else 0)
  {
    var a, before := auctions[id], BidShares(auctions, ids, user);
    if a.currentBid.Some? && a.userId == user {
      assert BidShares(auctions, ids + {id}, user) == before[id := a.currentBid.value];
      TotalInsert(before, id, a.currentBid.value);
    } else {
      assert BidShares(auctions, ids + {id}, user) == before;
    }
  }

  lemma AllBidsAdd(auctions: map<AuctionId, Auction>, ids: set<AuctionId>, id: AuctionId)
    requires id in auctions && id !in ids
    ensures var a := auctions[id];
      Total(AllBids(auctions, ids + {id}))
        == Total(AllBids(auctions, ids)) + (if a.currentBid.Some? then a.currentBid.value else 0)
  {
    var a, before := auctions[id], AllBids(auctions, ids);
    if a.currentBid.Some? {
      assert AllBids(auctions, ids + {id}) == before[id := a.currentBid.value];
      TotalInsert(before, id, a.currentBid.value);
    } else {
      assert AllBids(auctions, ids + {id}) == before;
    }
  }

  lemma SchedulablePrefix(t: Tables, order: seq<AuctionId>, n: nat)
    requires Schedulable(t, order) && n <= |order|
    ensures Schedulable(t, order[..n])
  {
    forall id | id in order[..n] ensures id in order {
      var i :| 0 <= i < n && order[..n][i] == id;
      assert order[i] == id;
    }
  }

  lemma SchedulableFacts(t: Tables, order: seq<AuctionId>)
    requires Schedulable(t, order)
    requires |order| > 0
    ensures var prefix, last := order[..|order| - 1], order[|order| - 1];
      && Schedulable(t, prefix)
      && last !in Elems(prefix)
      && Elems(order) == Elems(prefix) + {last}
      && AllHaveBidders(t.auctions, Elems(order))
  {
    var prefix, last := order[..|order| - 1], order[|order| - 1];
    assert order == prefix + [last];
    forall i | 0 <= i < |prefix| ensures prefix[i] != last { assert order[i] == prefix[i]; }
  }

  /**
   After settling `order`, each row holds what it held before plus the
   quantities of the settled auctions that deliver into it (several
   deliveries to one row accumulate), and the rows are the old ones plus
   those delivered into.
   */
  lemma {:induction false} SweepInventory(t: Tables, order: seq<AuctionId>)
    requires Schedulable(t, order)
    ensures AllHaveBidders(t.auctions, Elems(order))
    ensures var r := SettleAll(t, order);
      && r.inventory.Keys == t.inventory.Keys + Targets(t.auctions, Elems(order))
      && forall k :: Held(r.inventory, k) == Held(t.inventory, k) + Total(RowShares(t.auctions, Elems(order), k))
    decreases |order|
  {
    if order == [] {
      forall k ensures Total(RowShares(t.auctions, Elems(order), k)) == 0 {
        assert RowShares(t.auctions, Elems(order), k) == map[];
      }
    } else {
      SchedulableFacts(t, order);
      var prefix, last := order[..|order| - 1], order[|order| - 1];
      var mid := SettleAll(t, prefix);
      SweepInventory(t, prefix);
      SettleInventory(mid, last);
      var a := t.auctions[last];
      assert mid.auctions[last] == a;
      assert Targets(t.auctions, Elems(order)) == Targets(t.auctions, Elems(prefix)) + {RowKey(a)};
      forall k
        ensures Total(RowShares(t.auctions, Elems(order), k))
             == Total(RowShares(t.auctions, Elems(prefix), k)) + (if k == RowKey(a) then a.quantity else 0)
      {
        RowSharesAdd(t.auctions, Elems(prefix), last, k);
      }
    }
  }

  /**
   After settling `order`, every creator's balance is the old balance plus
   the bids of the settled auctions it created; the set of users does not
   change.
   */
  lemma {:induction false} SweepCurrency(t: Tables, order: seq<AuctionId>)
    requires Schedulable(t, order)
    ensures var r := SettleAll(t, order);
      forall u :: u in t.currency ==> r.currency[u] == t.currency[u] + Total(BidShares(t.auctions, Elems(order), u))
    decreases |order|
  {
    if order == [] {
      forall u ensures Total(BidShares(t.auctions, Elems(order), u)) == 0 {
        assert BidShares(t.auctions, Elems(order), u) == map[];
      }
    } else {
      SchedulableFacts(t, order);
      var prefix, last := order[..|order| - 1], order[|order| - 1];
      var mid := SettleAll(t, prefix);
      SweepCurrency(t, prefix);
      var a := t.auctions[last];
      assert mid.auctions[last] == a;
      forall u | u in t.currency
        ensures Total(BidShares(t.auctions, Elems(order), u))
             == Total(BidShares(t.auctions, Elems(prefix), u))
                + (if a.currentBid.Some? && a.userId == u then a.currentBid.value else 0)
      {
        BidSharesAdd(t.auctions, Elems(prefix), last, u);
      }
      if a.currentBid.Some? { SettleWithBid(mid, last); } else { SettleWithoutBid(mid, last); }
    }
  }

  /**
   The sum of all balances after settling `order` is the sum before plus the
   bids of the settled auctions that had one.
   */
  lemma {:induction false} SweepCurrencyTotal(t: Tables, order: seq<AuctionId>)
    requires Schedulable(t, order)
    ensures Total(SettleAll(t, order).currency) == Total(t.currency) + Total(AllBids(t.auctions, Elems(order)))
    decreases |order|
  {
    if order == [] {
      assert AllBids(t.auctions, Elems(order)) == map[];
    } else {
      SchedulableFacts(t, order);
      var prefix, last := order[..|order| - 1], order[|order| - 1];
      var mid := SettleAll(t, prefix);
      SweepCurrencyTotal(t, prefix);
      assert mid.auctions[last] == t.auctions[last];
      AllBidsAdd(t.auctions, Elems(prefix), last);
      SettleCurrencyTotal(mid, last);
    }
  }

  /** Settling one auction adds its bid, if any, to the sum of all balances. */
  lemma SettleCurrencyTotal(t: Tables, id: AuctionId)
    requires id in t.auctions && Settleable(t.auctions[id], t.currency.Keys)
    ensures var a := t.auctions[id];
      Total(Settle(t, id).currency) == Total(t.currency) + (if a.currentBid.Some? then a.currentBid.value else 0)
  {
    var a := t.auctions[id];
    if a.currentBid.Some? {
      TotalUpdate(t.currency, a.userId, t.currency[a.userId] + a.currentBid.value);
    }
  }

  /** Settling one auction moves its quantity from the auction into a row of the same item. */
  lemma ConservesItemsStep(t: Tables, id: AuctionId, item: ItemId)
    requires id in t.auctions && Settleable(t.auctions[id], t.currency.Keys)
    ensures ItemTotal(Settle(t, id), item) == ItemTotal(t, item)
  {
    var a, r := t.auctions[id], Settle(t, id);
    var key := RowKey(a);
    SettleInventory(t, id);
    var rows := ItemRows(t.inventory, item);
    var held := Escrowed(t.auctions, item);
    if a.itemId == item {
      assert ItemRows(r.inventory, item) == rows[key := Held(t.inventory, key) + a.quantity];
      if key in t.inventory {
        TotalUpdate(rows, key, Held(t.inventory, key) + a.quantity);
      } else {
        TotalInsert(rows, key, a.quantity);
      }
      assert Escrowed(r.auctions, item) == held - {id};
      TotalRemove(held, id);
    } else {
      assert ItemRows(r.inventory, item) == rows;
      assert Escrowed(r.auctions, item) == held;
    }
  }

  /**
   Item conservation: for every item, the quantity in inventories plus the
   quantity held by auctions is the same before and after settling `order`.
   */
  lemma {:induction false} SweepConservesItems(t: Tables, order: seq<AuctionId>, item: ItemId)
    requires Schedulable(t, order)
    ensures ItemTotal(SettleAll(t, order), item) == ItemTotal(t, item)
    decreases |order|
  {
    if order != [] {
      SchedulableFacts(t, order);
      var prefix, last := order[..|order| - 1], order[|order| - 1];
      SweepConservesItems(t, prefix, item);
      ConservesItemsStep(SettleAll(t, prefix), last, item);
    }
  }

  // ----- the sweep: settle exactly the due auctions -----

  lemma SweepSchedulable(t: Tables, now: int, order: seq<AuctionId>)
    requires SweepReady(t, now) && Enumerates(order, DueIds(t.auctions, now))
    ensures Schedulable(t, order)
  {
    forall id | id in order ensures id in t.auctions && Settleable(t.auctions[id], t.currency.Keys) {
      assert id in Elems(order);
    }
  }

  /**
   After a sweep no due auction is left, and every auction that is not due
   is still there, unchanged.
   */
  lemma SweepAuctions(t: Tables, now: int, order: seq<AuctionId>)
    requires SweepReady(t, now) && Enumerates(order, DueIds(t.auctions, now))
    ensures Schedulable(t, order)
    ensures var r := SettleAll(t, order);
      && (forall id :: id in r.auctions <==> id in t.auctions && !IsDue(t.auctions[id], now))
      && (forall id :: id in r.auctions ==> r.auctions[id] == t.auctions[id])
      && DueIds(r.auctions, now) == {}
  {
    SweepSchedulable(t, now, order);
  }

  /** Users who created no settled auction with a bid keep their balance. */
  lemma SweepUntouchedBalances(t: Tables, order: seq<AuctionId>)
    requires Schedulable(t, order)
    ensures var r := SettleAll(t, order);
      forall u :: u in t.currency && u !in Sellers(t.auctions, Elems(order)) ==> r.currency[u] == t.currency[u]
  {
    SweepCurrency(t, order);
    forall u | u in t.currency && u !in Sellers(t.auctions, Elems(order))
      ensures Total(BidShares(t.auctions, Elems(order), u)) == 0
    {
      assert BidShares(t.auctions, Elems(order), u) == map[];
    }
  }

  /** Rows that no settled auction delivers into are unchanged, present or absent. */
  lemma SweepUntouchedRows(t: Tables, order: seq<AuctionId>)
    requires Schedulable(t, order)
    ensures AllHaveBidders(t.auctions, Elems(order))
    ensures var r := SettleAll(t, order);
      forall k :: k !in Targets(t.auctions, Elems(order)) ==>
        (k in r.inventory <==> k in t.inventory) && Held(r.inventory, k) == Held(t.inventory, k)
  {
    SweepInventory(t, order);
    forall k | k !in Targets(t.auctions, Elems(order))
      ensures Total(RowShares(t.auctions, Elems(order), k)) == 0
    {
      assert RowShares(t.auctions, Elems(order), k) == map[];
    }
  }

  /**
   The result of a sweep does not depend on the order in which the query
   returned the due auctions.
   */
  lemma SweepOrderIndependent(t: Tables, now: int, order1: seq<AuctionId>, order2: seq<AuctionId>)
    requires SweepReady(t, now)
    requires Enumerates(order1, DueIds(t.auctions, now)) && Enumerates(order2, DueIds(t.auctions, now))
    ensures Schedulable(t, order1) && Schedulable(t, order2)
    ensures SettleAll(t, order1) == SettleAll(t, order2)
  {
    SweepSchedulable(t, now, order1);
    SweepSchedulable(t, now, order2);
    SameBatchSameResult(t, order1, order2);
  }

  lemma SameBatchSameResult(t: Tables, order1: seq<AuctionId>, order2: seq<AuctionId>)
    requires Schedulable(t, order1) && Schedulable(t, order2) && Elems(order1) == Elems(order2)
    ensures SettleAll(t, order1) == SettleAll(t, order2)
  {
    var r1, r2 := SettleAll(t, order1), SettleAll(t, order2);
    assert r1.inventory == r2.inventory by {
      SweepInventory(t, order1);
      SweepInventory(t, order2);
      assert r1.inventory.Keys == r2.inventory.Keys;
      forall k | k in r1.inventory ensures r1.inventory[k] == r2.inventory[k] {
        assert Held(r1.inventory, k) == Held(r2.inventory, k);
      }
    }
    assert r1.currency == r2.currency by {
      SweepCurrency(t, order1);
      SweepCurrency(t, order2);
      forall u | u in r1.currency ensures r1.currency[u] == r2.currency[u] {
        assert u in t.currency;
      }
      assert r1.currency.Keys == r2.currency.Keys;
    }
  }

  /**
   Sweeping twice with the same `now` is sweeping once: the second sweep
   finds no due auction and changes nothing.
   */
  lemma SweepIdempotent(t: Tables, now: int, order: seq<AuctionId>, again: seq<AuctionId>)
    requires SweepReady(t, now) && Enumerates(order, DueIds(t.auctions, now))
    requires Schedulable(t, order)
    requires Enumerates(again, DueIds(SettleAll(t, order).auctions, now))
    ensures again == []
    ensures SettleAll(SettleAll(t, order), again) == SettleAll(t, order)
  {
    SweepAuctions(t, now, order);
    FirstIsListed(again);
  }

  lemma FirstIsListed(order: seq<AuctionId>)
    ensures order != [] ==> order[0] in Elems(order)
  {
  }
}
