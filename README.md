# AuctionHouse expiry settlement, in Dafny

This project models the periodic task `process_expired_auctions` of the
AuctionHouse in-game economy backend. The task takes every auction whose
expiry time has been reached, settles it and deletes it:

- **With a bid** (`current_bid` is set): the auction's quantity of its item
  goes into the bidder's inventory row, and the row is created if it is
  missing. The creator's currency goes up by the bid.
- **Without a bid**: the quantity goes back into the creator's inventory
  row, which is also created if missing. No currency moves.

Each auction is committed on its own, so one loop iteration is one atomic
step.

The store has three tables: auction rows, each user's currency, and one
inventory row per (user, item) pair. The project has three modules:

- `Totals` (`totals.dfy`) defines sums over the values of a finite map.
  These give the totals the sweep has to keep.
- `Settlement` (`settlement.dfy`) holds the tables as values (`Tables`).
  It defines the effect of settling one auction (`Settle`) and of settling a
  batch in the order the query returned it (`SettleAll`), and it proves what
  the sweep promises. Every total is a sum over a *set* of settled auctions,
  so the result is shown not to depend on that order.
- `AuctionTasks` (`auction_tasks.dfy`) is the imperative code. The class
  `AuctionHouse` holds the three tables as fields.
  - `ExpiredAuctions` is the query. It returns the due ids as a list.
  - `SettleOne` is one committed loop iteration.
  - `ProcessExpiredAuctions` runs a `for` loop over the query's list, as the
    source does, and is proved equal to `SettleAll`.

Modelling decisions:

- The clock is a parameter: `now` replaces `datetime.now()`.
- Times are integers. Ids are integers.
- An auction's `quantity` is a `nat`. Inventory quantities are `nat`.
  Currency is an unbounded `int`, like a Python integer.
- The source crashes when a user lookup returns nothing. The model makes
  that a precondition, `SweepReady`: every due auction's creator exists, and
  so does its bidder when there is a bid. The existing users are exactly the
  keys of the currency table.
- Where the design intent and the code disagree, the model follows
  `auction_tasks.py`:
  - Settlement deposits items straight into inventory rows. No settlement
    record is created.
  - The settled auction is deleted, not marked as settled.
  - No bidder funds are reserved or refunded.

## Model

| member | source | states |
|---|---|---|
| `Settlement.Deposit` | auction_tasks.py:22-27 | The target row afterwards holds its old quantity plus the deposited quantity. A missing row is created holding exactly that quantity. Every other row is unchanged. |
| `Settlement.Settle` | auction_tasks.py:15-45 | Settling one auction deletes exactly that auction row and keeps the set of users. |
| `Settlement.SettleWithBid` | auction_tasks.py:16-32 | With a bid, the bidder's row for the item exists afterwards and grows by exactly the auction's quantity. The creator gains exactly the bid. No other row or balance changes. |
| `Settlement.SettleWithoutBid` | auction_tasks.py:33-45 | Without a bid, the creator's row for the item exists afterwards and grows by exactly the auction's quantity. No other row changes, and the currency table is untouched. |
| `Settlement.SettleInventory` | auction_tasks.py:22-27 | In both cases, only the recipient's row for the item changes, and it gains exactly the auction's quantity. The recipient is the bidder if there is a bid, else the creator. |
| `Settlement.SettleCurrencyTotal` | auction_tasks.py:29 | One settlement adds exactly its bid, or nothing when there is no bid, to the sum of all balances. |
| `Settlement.SettleAll` | auction_tasks.py:15-45 | Settling a list of distinct auctions deletes exactly those auctions and keeps the set of users. |
| `Settlement.SweepInventory` | auction_tasks.py:22-27 | After a batch, each row holds its old quantity plus the quantities of all settled auctions delivering into it, so several deposits into one row add up. The rows are the old rows plus the rows delivered into. |
| `Settlement.SweepUntouchedRows` | auction_tasks.py:22-42 | A row that no settled auction delivers into keeps its quantity. If it was absent, it stays absent. |
| `Settlement.SweepCurrency` | auction_tasks.py:16-29 | After a batch, each user's balance is the old balance plus the bids of the settled auctions that user created. |
| `Settlement.SweepUntouchedBalances` | auction_tasks.py:19-29 | Users who created no settled auction with a bid keep their balance. |
| `Settlement.SweepCurrencyTotal` | auction_tasks.py:29 | The sum of all balances after a batch is the sum before plus the bids of the settled auctions that had one. |
| `Settlement.ConservesItemsStep` | auction_tasks.py:22-44 | One settlement moves its quantity from the auction into a row of the same item. For every item, the total in rows plus auctions is unchanged. |
| `Settlement.SweepConservesItems` | auction_tasks.py:15-45 | Item conservation over a batch: for every item, the inventory quantities plus the quantities in remaining auctions are the same before and after. |
| `Settlement.SweepAuctions` | auction_tasks.py:12-13 | After a sweep, no due auction remains. Every auction that was not due is still present and unchanged. |
| `Settlement.SweepOrderIndependent` | auction_tasks.py:13-15 | Any two orders in which the query may return the due auctions give the same final tables. |
| `Settlement.SameBatchSameResult` | auction_tasks.py:15 | Two lists of the same auctions settle to the same tables. |
| `Settlement.SweepIdempotent` | auction_tasks.py:13-45 | A second sweep with the same `now` finds no due auction and changes nothing. |
| `AuctionTasks.AuctionHouse.ExpiredAuctions` | auction_tasks.py:13 | The query returns each auction with `expiry_time <= now` exactly once, and nothing else. |
| `AuctionTasks.AuctionHouse.SettleOne` | auction_tasks.py:16-45 | One loop iteration changes the three tables exactly as `Settle` says. |
| `AuctionTasks.AuctionHouse.ProcessExpiredAuctions` | auction_tasks.py:8-47 | The task settles every due auction once, in the query's order, and returns its fixed message. Afterwards no due auction is left and all other auctions are unchanged. The currency total grows by exactly the settled bids, and every item is conserved. |

## Left out

- The Celery task decorator, the beat schedule that runs the task every 5 seconds, and the Redis broker configuration (auction_tasks.py:7, 50-55; celery_config.py) are scheduling infrastructure.
- The Flask application, its routes, the database URI and `db.create_all()` (application.py) are web and persistence plumbing. Its `User` model has only an id and a username.
- The ORM calls (`Auction.query.filter`, `User.query.get`, `UserInventory.query.filter_by`, `db.session.add`, `delete` and `commit`) become map lookups, map updates and key removal. Each commit is one atomic loop iteration (`SettleOne`).
- A missing creator or bidder crashes the task partway through the loop, after earlier auctions were already committed. The model requires that all referenced users exist (`SweepReady`), so that partial outcome is not modelled.
- Reading the clock (`datetime.now()`) is replaced by the parameter `now`.
- The order in which the database returns expired auctions is unspecified. `ExpiredAuctions` returns them in an arbitrary order, and `SweepOrderIndependent` shows that the order does not matter.
- Concurrent runs of the task by several workers are not modelled. The code has no locking or claiming of auctions to reason about.
- Bid placement, reservation and refund of bidder funds, settlement records and auction creation have no code in the source, so they are not modelled.
- A negative auction quantity is not modelled, since quantities are `nat`.
