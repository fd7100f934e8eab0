# Order book, order tracker and LRU cache — a Dafny model

This project models three small, sequential, in-memory components of one C++
repository and proves properties of them.

1. **The `ex` order book engine** (`assignments/ats`). For each product it keeps
   a buy side and a sell side. Each side is a `std::set` ordered by a comparator
   that looks at the price alone: buys descend, sells ascend. It also keeps an
   index from order id to product, and a registry of the products that have seen
   an order. The engine is notified of decoded New, Amend, Cancel and Trade
   events and answers each one with an `ErrorCode`. Its `print` selects, for each
   product, the best price levels of each side.
   - `types.dfy` models the scalar widths, the `Action`/`Side`/`ErrorCode`
     enumerations and their character codecs.
   - `state.dfy` models the `OrderInfo` record and the two comparators.
   - `messages.dfy` models the four event records.
   - `price_book.dfy` models the per-side algorithms `amend`, `cancel`,
     `bestPriceMatch` and `execute`.
   - `order_book.dfy` models the engine class, with `notify` and the level
     selection of `print`.
2. **The `OrderTracker`** (`assignments/eclipse_trading`), in `order_tracker.dfy`.
   It is driven by exchange callbacks. It keeps the order store, the replace
   requests waiting for an acknowledgement, and the Net Filled Quantity (NFQ):
   bid fills minus offer fills.
3. **The `LRUCache`** (`hackerank/lru_cache`), in `lru_cache.dfy`. It keeps a
   key→value store and the cached keys ordered from most to least recently
   used. A full cache evicts the least recently used key.

Modelling choices:
- Prices are only compared, never computed with, so they are integer ticks.
- `Quantity` is an unsigned 32-bit subtype. `ProductId` and `OrderId` are
  unsigned 64-bit subtypes.
- A book side is modelled as the set's iteration order. This is a sequence that
  is strictly sorted under the side's comparator, so it has at most one entry per
  price. `std::set::emplace` is `PriceBook.Insert`. It does nothing when an entry
  already rests at that price.
- The per-side algorithms take a side by value and return the new side. The
  engine's class fields hold the maps of sides and reassign them.
- `execute` keeps its `while` loop as a method. It is proved equal to the
  loop-free function `PriceBook.Executed`.

Behaviours of the code a reader might not expect, which the model keeps as
written:
- **Duplicate prices.** A New event at a price that already rests on the side is
  indexed, but the side is left as it was, because the emplace is refused.
- **Amend onto an occupied price.** An Amend to a price where another entry rests
  erases the order and then fails to emplace it, so the order vanishes.
- **Cancel keeps the index entry.** The order id therefore stays reserved, and a
  later New with that id gets `DuplicateOrderId`.
- **Exact fill.** A trade that exactly fills an entry leaves it on the side with
  quantity 0. It does not remove the price level.
- **Trades only hit the buy side.** `execute` depletes only the buy side. The
  sell side of the product is looked up but not changed.
- **No last-trade record.** No code keeps one, so none is modelled.
- **Side mismatch.** An Amend or Cancel whose side does not hold the order gets
  `InvalidOrderId`.

The header `OrderBook.h` declares the `notify` overloads as `void` and has no
`products` field. `OrderBook.cpp` uses `ErrorCode`-returning overloads,
`products` and `orderExists`. The model takes the `.cpp` forms as authoritative:
- `orderExists` is membership in the index.
- `amend` and `cancel` return `InvalidOrderId` when the side does not hold the
  order, and `Ok` otherwise.
- `execute` returns `Ok`.

## Model

| member | source | states |
|---|---|---|
| `Types.WrappingSub` | assignments/ats/include/ex/type/Types.h:7 | unsigned 32-bit subtraction: exact when no borrow, otherwise wraps by 2^32 |
| `Types.WriteAction` | assignments/ats/src/ex/type/Types.cpp:4-8 | writing an Action emits exactly its one code character |
| `Types.ReadAction` | assignments/ats/src/ex/type/Types.cpp:10-28 | a character reads as a known Action exactly when it is 'N','M','R' or 'X', and then as the Action with that code; anything else reads as Unknown |
| `Types.ActionCodeInjective` | assignments/ats/include/ex/type/Types.h:13-19 | the five Action codes are pairwise distinct |
| `Types.ActionRoundTrip` | assignments/ats/src/ex/type/Types.cpp:4-28 | reading back a written Action gives the same Action, Unknown included |
| `Types.WriteSide` | assignments/ats/src/ex/type/Types.cpp:30-34 | writing a Side emits exactly its one code character |
| `Types.ReadSide` | assignments/ats/src/ex/type/Types.cpp:36-50 | a character reads as Buy or Sell exactly when it is 'B' or 'S'; anything else reads as Unknown |
| `Types.SideCodeInjective` | assignments/ats/include/ex/type/Types.h:24-28 | the three Side codes are pairwise distinct |
| `Types.SideRoundTrip` | assignments/ats/src/ex/type/Types.cpp:30-50 | reading back a written Side gives the same Side, Unknown included |
| `Types.ErrorCodesEnumerated` | assignments/ats/include/ex/type/Types.h:33-43 | ErrorCode has exactly nine enumerators, from Ok through Unknown, with pairwise distinct values |
| `Types.ErrorMessage` | assignments/ats/src/ex/type/Types.cpp:52-77 | only Ok prints "No Error" and only Unknown prints "Unknown Error" |
| `Types.ErrorMessageInjective` | assignments/ats/src/ex/type/Types.cpp:52-77 | the nine ErrorCodes print nine distinct messages |
| `State.ComparatorsAreStrictOrders` | assignments/ats/include/ex/state/OrderInfo.h:12-22 | both price comparators are irreflexive and transitive |
| `State.ComparatorsAreMirrored` | assignments/ats/include/ex/state/OrderInfo.h:12-22 | the descending comparator is the ascending one with its arguments swapped |
| `State.EquivalentIffSamePrice` | assignments/ats/include/ex/state/OrderInfo.h:6-22 | under either comparator, two entries are equivalent exactly when their prices are equal; order id and quantity are ignored |
| `PriceBook.SortedPricesUnique` | assignments/ats/include/ex/OrderBook.h:26-38 | on a side ordered by its comparator, no two entries share a price |
| `PriceBook.SortedExtensional` | assignments/ats/include/ex/OrderBook.h:37-38 | two sorted sides holding the same entries are the same side |
| `PriceBook.Insert` | assignments/ats/include/ex/OrderBook.h:59 | emplace keeps the side sorted; at an occupied price it changes nothing, otherwise it adds exactly the new entry |
| `PriceBook.Erase` | assignments/ats/include/ex/OrderBook.h:53 | erase at a position shifts the later entries down by one and keeps the earlier ones |
| `PriceBook.EraseSorted` | assignments/ats/include/ex/OrderBook.h:73 | erasing from a sorted side keeps it sorted and removes exactly that entry |
| `PriceBook.EraseThenInsertSamePrice` | assignments/ats/include/ex/OrderBook.h:90-93 | erase followed by emplace at the same price replaces the entry in its own slot; the emplace cannot be refused |
| `PriceBook.FindOrder` | assignments/ats/include/ex/OrderBook.h:47-50 | the search by order id finds the first entry carrying the id, and reaches the end exactly when the side does not hold the id |
| `PriceBook.BestPriceMatch` | assignments/ats/include/ex/OrderBook.h:79-82 | the first position from b whose entry has the given price, or the end when none does |
| `PriceBook.Amend` | assignments/ats/include/ex/OrderBook.h:45-63 | a held order is replaced by (id, new quantity, new price) and every other entry is kept; if another entry rests at the new price, the order vanishes; a side without the order is unchanged and the result is InvalidOrderId |
| `PriceBook.Cancel` | assignments/ats/include/ex/OrderBook.h:65-77 | a held order's entry is removed and nothing else changes; a side without the order is unchanged and the result is InvalidOrderId |
| `PriceBook.Executed` | assignments/ats/include/ex/OrderBook.h:84-103 | a trade keeps the side sorted and leaves every entry at other prices; a price with no entry or a zero quantity changes nothing |
| `PriceBook.ExecutedAtEntry` | assignments/ats/include/ex/OrderBook.h:88-101 | the entry at the trade price stays in its slot, reduced by the traded quantity, if it covers that quantity; otherwise it is removed |
| `PriceBook.ExecutedDepletesLevel` | assignments/ats/include/ex/OrderBook.h:88-101 | the quantity resting at the trade price drops by the traded quantity, and never below 0 |
| `PriceBook.ExactFillKeepsEmptyLevel` | assignments/ats/include/ex/OrderBook.h:89-96 | a trade for exactly the resting quantity leaves the entry in place with quantity 0 |
| `PriceBook.QuantityAtEntry` | assignments/ats/include/ex/OrderBook.h:26-38 | on a sorted side, the quantity resting at a quoted price is that of its single entry |
| `PriceBook.Execute` | assignments/ats/include/ex/OrderBook.h:84-103 | the matching loop, including its read of the entry after an erase, produces exactly `Executed` of the side |
| `OrderBook.ExecutedStaysIndexed` | assignments/ats/src/ex/OrderBook.cpp:117-120 | after a trade, every entry left on the side is still indexed to the side's product |
| `OrderBook.UpperBound` | assignments/ats/src/ex/OrderBook.cpp:35 | upper_bound: the first position whose entry the given entry goes before, with no earlier such position, or the end |
| `OrderBook.NatToString` | assignments/ats/src/ex/OrderBook.cpp:19 | std::to_string of a level number: a non-empty string of decimal digits, without a leading zero, whose value is the number |
| `OrderBook.UpperBoundIsNext` | assignments/ats/src/ex/OrderBook.cpp:35 | on a sorted side, upper_bound of an entry is the next position, so each step of the print loop moves to the next price level |
| `OrderBook.PrintHeaders` | assignments/ats/src/ex/OrderBook.cpp:14-25 | the header cells are Product, Bid1..BidN, Ask1..AskN |
| `OrderBook.PrintPricePoints` | assignments/ats/src/ex/OrderBook.cpp:26-43 | exactly `level` cells: the first min(level, size) prices in book order, then one placeholder per missing level |
| `OrderBook.OrderBook.Print` | assignments/ats/src/ex/OrderBook.cpp:45-58 | the header row when asked for, and one row per registered product holding its bid and ask level cells |
| `OrderBook.OrderBook.constructor` | assignments/ats/include/ex/OrderBook.h:41-43 | an engine starts with no sides, no products and an empty index |
| `OrderBook.OrderBook.OrderExists` | assignments/ats/src/ex/OrderBook.cpp:61 | an order id counts as existing when it is indexed; an unindexed id rests on no buy or sell side of any product |
| `OrderBook.OrderBook.NotifyNew` | assignments/ats/src/ex/OrderBook.cpp:59-79 | an indexed id gives DuplicateOrderId and changes nothing; otherwise Ok, the product is registered, the id is indexed to it, and the entry is emplaced on the buy side for Buy and on the sell side otherwise |
| `OrderBook.OrderBook.NotifyAmend` | assignments/ats/src/ex/OrderBook.cpp:81-97 | an unindexed id gives InvalidProductId and changes nothing; otherwise the named side of the indexed product is amended, and the other side, other products, index and registry are kept |
| `OrderBook.OrderBook.AmendStaysIndexed` | assignments/ats/src/ex/OrderBook.cpp:88-96 | amending keeps every entry of the side indexed to its product |
| `OrderBook.OrderBook.NotifyCancel` | assignments/ats/src/ex/OrderBook.cpp:99-115 | an unindexed id gives InvalidProductId and changes nothing; otherwise the order is erased from the named side of the indexed product, the index entry is kept, and everything else is unchanged |
| `OrderBook.OrderBook.NotifyTrade` | assignments/ats/src/ex/OrderBook.cpp:117-120 | always Ok; only the product's buy side is executed against; its sell side and every other product are unchanged |
| `OrderTracking.SideOf` | assignments/eclipse_trading/OrderTracker.cpp:27-31 | 'B' is Bid, 'O' is Offer, and any other character is kept as an unnamed side |
| `OrderTracking.MergeOrderInfo` | assignments/eclipse_trading/OrderTracker.cpp:310-312 | the replacement keeps side and price, and its quantity differs from the original by delta |
| `OrderTracking.SignedSumAppend` | assignments/eclipse_trading/OrderTracker.cpp:51-54 | accumulating one more fill adds its signed quantity to the running total |
| `OrderTracking.NetFilledQuantity.constructor` | assignments/eclipse_trading/OrderTracker.cpp:56-58 | NFQ starts at 0 with no fills |
| `OrderTracking.NetFilledQuantity.NotifyFill` | assignments/eclipse_trading/OrderTracker.cpp:64-77 | a bid fill adds the quantity, an offer fill subtracts it, and NFQ stays the signed sum of all fills |
| `OrderTracking.NetFilledQuantity.Value` | assignments/eclipse_trading/OrderTracker.cpp:79 | the value is the signed sum of all fills so far |
| `OrderTracking.OrderTracker.constructor` | assignments/eclipse_trading/OrderTracker.cpp:210-215 | a tracker starts with no orders, no pending replaces and no fills |
| `OrderTracking.OrderTracker.OnInsertOrderRequest` | assignments/eclipse_trading/OrderTracker.cpp:287-298 | a fresh id maps to (side, price, quantity); a taken id keeps its order; pending replaces are unchanged |
| `OrderTracking.OrderTracker.OnReplaceOrderRequest` | assignments/eclipse_trading/OrderTracker.cpp:301-307 | records (newId, delta) under oldId unless one is already pending; orders are unchanged |
| `OrderTracking.OrderTracker.OnRequestAcknowledged` | assignments/eclipse_trading/OrderTracker.cpp:315-336 | for a pending replace: the merged order is added under newId unless taken, the old id is dropped and the pending entry is removed; otherwise nothing changes |
| `OrderTracking.OrderTracker.OnRequestRejected` | assignments/eclipse_trading/OrderTracker.cpp:339-344 | a rejection changes nothing |
| `OrderTracking.OrderTracker.OnOrderFilled` | assignments/eclipse_trading/OrderTracker.cpp:347-358 | the filled order's quantity drops by the fill, other orders are kept, and NFQ moves by the fill's signed quantity |
| `OrderTracking.OrderTracker.NetFilledQuantityValue` | assignments/eclipse_trading/OrderTracker.cpp:244-246 | NFQ equals the signed sum of all fills so far, bids positive and offers negative |
| `LruCache.Remove` | hackerank/lru_cache/LRUCache.cpp:112-119 | unlinking a key removes exactly that key, keeps the others distinct and shortens a list holding it by one |
| `LruCache.MoveToFront` | hackerank/lru_cache/LRUCache.cpp:110-111 | the used key comes first, the same keys stay cached, and the length is unchanged |
| `LruCache.RemoveIsSlice` | hackerank/lru_cache/LRUCache.cpp:116-118 | on a distinct list, unlinking a key cuts it out of its slot; the keys before and after it keep their relative order |
| `LruCache.MoveToFrontKeepsLast` | hackerank/lru_cache/LRUCache.cpp:110-111 | using any key other than the least recently used one keeps that key last, so it is still the next to be evicted |
| `LruCache.MoveToFrontOfHead` | hackerank/lru_cache/LRUCache.cpp:123-124 | using the most recently used key leaves the order as it is |
| `LruCache.LRUCache.constructor` | hackerank/lru_cache/LRUCache.cpp:33-39 | a cache of capacity at least 2 starts empty |
| `LruCache.LRUCache.Get` | hackerank/lru_cache/LRUCache.cpp:61-78 | a miss returns -1 and changes nothing; a hit returns the value and makes the key most recent, with the size unchanged |
| `LruCache.LRUCache.Set` | hackerank/lru_cache/LRUCache.cpp:41-59 | a cached key only becomes most recent and keeps its value; a new key is added as most recent, and in a full cache exactly the least recently used key is evicted and can no longer be found |
| `LruCache.LRUCache.QuickGet` | hackerank/lru_cache/LRUCache.cpp:82-85 | finds a key's value exactly when the key is stored |
| `LruCache.LRUCache.SaveInCache` | hackerank/lru_cache/LRUCache.cpp:87-96 | a full cache first evicts the least recently used key; the key is then linked in first |
| `LruCache.LRUCache.SaveInStore` | hackerank/lru_cache/LRUCache.cpp:98-108 | the key maps to the given value afterwards, whether it was stored before or not |
| `LruCache.LRUCache.MarkAsMostRecentlyUsed` | hackerank/lru_cache/LRUCache.cpp:110-134 | moves a cached key to the front and leaves the store and size unchanged |
| `LruCache.LRUCache.InsertToHead` | hackerank/lru_cache/LRUCache.cpp:136-148 | links the key in first and grows the size by one |
| `LruCache.LRUCache.RemoveLeastRecentlyUsed` | hackerank/lru_cache/LRUCache.cpp:150-156 | evicts the last key from the store and the list; an empty cache is unchanged |
| `LruCache.LRUCache.RemoveTail` | hackerank/lru_cache/LRUCache.cpp:158-169 | unlinks the last key and shrinks the size by one |

## Left out

- Floating-point prices: prices are integer ticks, and NaN and inexact equality are not modelled.
- The text stream operators of the event records and the enumerations are left out. These are `istream` extraction and `ostream` insertion, with their whitespace and failbit behaviour. Only the character each one reads or writes is modelled.
- The feed decoder, the file handling and the `main` functions' I/O are left out. They are I/O plumbing. The events that the order tracker's `main` replays appear as the scenario `OrderTracking.DriverSequence`, whose asserts state the NFQ after each fill. The NFQ is stated in place of the printed output.
- Output formatting is left out: `setw` widths, the stream the rows go to, and the `printAll` debug helper. `Print` returns the selected cells instead of writing them.
- OrderBook.OrderBook.Print: `print` reaches the sides through `operator[]`, which creates empty sides for registered products that lack one. The model reads an absent side as empty and does not record that insertion. No side's contents change.
- PriceBook.Execute: after a short entry is erased, the source reads the quantity of the entry that follows. When that entry is the end of the set, this read is undefined behaviour. The model leaves the remaining quantity unchanged in that case. The loop then stops either way, and the resulting side does not depend on the value.
- The `ConfirmedOrderValue` and `PendingOrderValue` accumulators of the order tracker are left out. They are floating-point `price * quantity` sums.
- The request rate tracker is left out. It reads the wall clock.
- OrderTracking.OrderTracker.OnOrderFilled: order quantities and NFQ are unbounded integers. Overflow of the source's 32-bit `int` is undefined behaviour and is not modelled.
- OrderTracking.OrderTracker.OnRequestAcknowledged: the source asserts that a pending id is in the order store. The model makes this a precondition.
- OrderTracking.OrderTracker.OnRequestAcknowledged: after a replace acknowledgement the handler calls `cov.notifyAck(id)` and `pov.notifyAck(id)` (OrderTracker.cpp:334-335). These look up the id that :331 has just erased. Their asserts at :98 and :158 therefore fail, and without assertions `end()` is dereferenced. The same assert at :98 fails for an acknowledgement of any id that is not in the store. In addition, the `orders.emplace` at :327 may rehash and invalidate `orig_order_iter`, which :331 then passes to `erase`; that is undefined behaviour. The model does not capture these failures. It describes the order store and the pending map as the handler leaves them at :332, with the old id erased by key.
- OrderTracking.OrderTracker.OnOrderFilled: the source asserts that the filled id is in the order store. The model makes this a precondition.
- LruCache.LRUCache.constructor: requires capacity ≥ 2. With capacity 1, evicting the only entry dereferences a null `tail`.
- The `prev`/`next` link rewiring of the doubly-linked recency list is left out. Recency is the sequence the list is meant to hold: `markAsMostRecentlyUsed` as written does not update `head`, and does not update `tail` when it moves the tail. The model follows the stated intent that a used key becomes the head.
