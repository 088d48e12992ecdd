/**
 The periodic task of `auction_tasks.py`: the store's three tables as fields
 of an object, and the sweep that settles and deletes every expired auction,
 one committed auction at a time.
 */
module AuctionTasks {
  import opened Totals
  import opened Settlement

  class AuctionHouse {
    var auctions: map<AuctionId, Auction>
    var currency: map<UserId, int>
    var inventory: map<InvKey, nat>

    /** The current contents of the three tables. */
    function Snapshot(): Tables
      reads this
    {
      Tables(auctions, currency, inventory)
    }

    constructor (auctions: map<AuctionId, Auction>, currency: map<UserId, int>, inventory: map<InvKey, nat>)
      ensures Snapshot() == Tables(auctions, currency, inventory)
    {
      this.auctions := auctions;
      this.currency := currency;
      this.inventory := inventory;
    }

    /**
     The body of the sweep's loop for one auction, up to and including its
     commit: deliver the items, credit the creator if there was a bid, delete
     the auction.
     */
    method SettleOne(id: AuctionId)
      requires id in auctions && Settleable(auctions[id], currency.Keys)
      modifies this
      ensures Snapshot() == Settle(old(Snapshot()), id)
    {
      var auction := auctions[id];
      if auction.currentBid.Some? {
        var bidder, creator := auction.currentBidderId.value, auction.userId;
        var key := InvKey(bidder, auction.itemId);
        if key in inventory {
          inventory := inventory[key := inventory[key] + auction.quantity];
        } else {
          inventory := inventory[key := auction.quantity];
        }
        currency := currency[creator := currency[creator] + auction.currentBid.value];
        auctions := auctions - {id};
      } else {
        var creator := auction.userId;
        var key := InvKey(creator, auction.itemId);
        if key in inventory {
          inventory := inventory[key := inventory[key] + auction.quantity];
        } else {
          inventory := inventory[key := auction.quantity];
        }
        auctions := auctions - {id};
      }
    }

    /**
     The query: the ids of all auctions whose expiry time is at most `now`,
     each once, in an order the store chooses.
     */
    method ExpiredAuctions(now: int) returns (expired: seq<AuctionId>)
      ensures Enumerates(expired, DueIds(auctions, now))
    {
      var pending := DueIds(auctions, now);
      expired := [];
      while pending != {}
        invariant Distinct(expired) && Elems(expired) !! pending
        invariant Elems(expired) + pending == DueIds(auctions, now)
        decreases pending
      {
        assert (forall x :: x !in pending) ==> pending == {};
        var id :| id in pending;
        expired := expired + [id];
        pending := pending - {id};
      }
    }

    /**
     Settles every auction whose expiry time is at most `now`, in the order
     the query returned them (`order`), and leaves every other auction alone.
     */
    method ProcessExpiredAuctions(now: int) returns (message: string, ghost order: seq<AuctionId>)
      requires SweepReady(Snapshot(), now)
      modifies this
      ensures message == "Expired auctions processed successfully."
      ensures Enumerates(order, DueIds(old(auctions), now))
      ensures Schedulable(old(Snapshot()), order)
      ensures Snapshot() == SettleAll(old(Snapshot()), order)
      ensures DueIds(auctions, now) == {}
      ensures forall id :: id in auctions <==> id in old(auctions) && !IsDue(old(auctions)[id], now)
      ensures forall id :: id in auctions ==> auctions[id] == old(auctions)[id]
      ensures currency.Keys == old(currency).Keys
      ensures Total(currency) == Total(old(currency)) + Total(AllBids(old(auctions), DueIds(old(auctions), now)))
      ensures forall item :: ItemTotal(Snapshot(), item) == ItemTotal(old(Snapshot()), item)
    {
      ghost var start := Snapshot();
      var expired := ExpiredAuctions(now);
      SweepSchedulable(start, now, expired);
      for i := 0 to |expired|
        invariant Schedulable(start, expired[..i])
        invariant Snapshot() == SettleAll(start, expired[..i])
      {
        SchedulablePrefix(start, expired, i + 1);
        SchedulableFacts(start, expired[..i + 1]);
        assert expired[..i + 1][..i] == expired[..i];
        SettleOne(expired[i]);
      }
      assert expired[..|expired|] == expired;
      order := expired;
      SweepAuctions(start, now, order);
      SweepCurrencyTotal(start, order);
      forall item ensures ItemTotal(Snapshot(), item) == ItemTotal(start, item) {
        SweepConservesItems(start, order, item);
      }
      message := "Expired auctions processed successfully.";
    }
  }
}
