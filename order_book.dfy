/** The order book engine: per product, a buy side and a sell side, the
    index from order id to product, and the registry of products that have
    seen an order. It is notified of decoded New, Amend, Cancel and Trade
    events, answers each with an ErrorCode, and selects the price levels a
    snapshot shows. */
module OrderBook {
  import opened Types
  import opened State
  import opened Messages
  import opened PriceBook

  type Sides = map<ProductId, seq<OrderInfo>>
  type Index = map<OrderId, ProductId>

  /** A product's side as operator[] sees it: absent products have an empty set. */
  function Lookup(m: Sides, p: ProductId): (s: seq<OrderInfo>)
    ensures p in m ==> s == m[p]
    ensures p !in m ==> s == []
  {
    if p in m then m[p] else []
  }

  /** Every entry of a side is indexed to the side's product. */
  ghost predicate IndexedTo(s: seq<OrderInfo>, index: Index, p: ProductId)
  {
    forall x :: x in s ==> x.orderId in index && index[x.orderId] == p
  }

  /** Trade execution keeps every remaining entry's order id, so it keeps the
      entries indexed to their product. */
  lemma ExecutedStaysIndexed(o: Ordering, s: seq<OrderInfo>, trade: Trade, index: Index, p: ProductId)
    requires Sorted(o, s) && IndexedTo(s, index, p)
    ensures IndexedTo(Executed(o, s, trade.price, trade.quantity), index, p)
  {
    var i := BestPriceMatch(s, 0, trade.price);
    var r := Executed(o, s, trade.price, trade.quantity);
    if trade.quantity != 0 && i < |s| {
      forall x | x in r
        ensures x.orderId in index && index[x.orderId] == p
      {
        var k :| 0 <= k < |r| && r[k] == x;
        if s[i].quantity >= trade.quantity {
          assert x.orderId == s[k].orderId && s[k] in s;
        } else {
          var k' := if k < i then k else k + 1;
          assert x == s[k'] && s[k'] in s;
        }
      }
    }
  }

  // ------------------------------------------------------------- snapshot

  /** One price-point cell of a snapshot row: a price, or the '-' placeholder. */
  datatype Cell = Level(price: Price) | Blank

  /** A snapshot row of one product: its bid cells, then its ask cells. */
  datatype Row = Row(bids: seq<Cell>, asks: seq<Cell>)

  /** cells shows exactly level cells for side s: the first min(level, |s|)
      prices in book order, then one placeholder per missing level. */
  predicate ShowsLevels(cells: seq<Cell>, s: seq<OrderInfo>, level: nat)
  {
    |cells| == level &&
    forall k :: 0 <= k < level ==> cells[k] == if k < |s| then Level(s[k].price) else Blank
  }

  /** A column title: the side's name followed by the level number. */
  function Column(name: string, i: nat): string
  {
    name + NatToString(i)
  }

  /** The header row: Product, Bid1..BidN, Ask1..AskN. */
  predicate IsHeader(header: seq<string>, level: nat)
  {
    && |header| == 1 + 2 * level
    && header[0] == "Product"
    && forall i :: 1 <= i <= level ==> header[i] == Column("Bid", i) && header[level + i] == Column("Ask", i)
  }

  predicate AllDigits(s: string)
  {
    forall i :: 0 <= i < |s| ==> '0' <= s[i] <= '9'
  }

  /** The number a string of decimal digits denotes, most significant first. */
  function DigitsValue(s: string): nat
    requires AllDigits(s)
  {
    if s == [] then 0
    else 10 * DigitsValue(s[..|s| - 1]) + (s[|s| - 1] as int - '0' as int)
  }

  /** std::to_string on a non-negative integer: its decimal digits, without
      leading zeros, denoting n. */
  function NatToString(n: nat): (s: string)
    ensures |s| >= 1 && AllDigits(s)
    ensures DigitsValue(s) == n
    ensures n > 0 ==> s[0] != '0'
    decreases n
  {
    var digit := ['0' + (n % 10) as char];
    if n < 10 then digit
    else
      var prefix := NatToString(n / 10);
      assert (prefix + digit)[..|prefix + digit| - 1] == prefix;
      prefix + digit
  }

  /** std::set::upper_bound: the first position whose entry e goes before. */
  function UpperBound(o: Ordering, s: seq<OrderInfo>, e: OrderInfo): (r: nat)
    ensures r <= |s|
    ensures r < |s| ==> Before(o, e, s[r])
    ensures forall k :: 0 <= k < r ==> !Before(o, e, s[k])
  {
    FindIf(s, 0, (x: OrderInfo) => Before(o, e, x))
  }

  /** On a sorted side the upper bound of an entry is the next position: each
      step of the snapshot loop moves to the next price level. */
  lemma UpperBoundIsNext(o: Ordering, s: seq<OrderInfo>, k: nat)
    requires Sorted(o, s) && k < |s|
    ensures UpperBound(o, s, s[k]) == k + 1
  {
    forall j | 0 <= j < k
      ensures !Before(o, s[k], s[j])
    {
      assert Before(o, s[j], s[k]);
    }
    if k + 1 < |s| {
      assert Before(o, s[k], s[k + 1]);
    }
  }

  /** printHeaders, as the cells it writes. */
  method PrintHeaders(uptoLevel: nat) returns (header: seq<string>)
    ensures IsHeader(header, uptoLevel)
  {
    header := ["Product"];
    var columnName := "Bid";
    for i := 1 to uptoLevel + 1
      invariant |header| == i
      invariant header[0] == "Product"
      invariant forall j :: 1 <= j < i ==> header[j] == Column("Bid", j)
    {
      header := header + [Column(columnName, i)];
    }
    columnName := "Ask";
    for i := 1 to uptoLevel + 1
      invariant |header| == uptoLevel + i
      invariant header[0] == "Product"
      invariant forall j :: 1 <= j <= uptoLevel ==> header[j] == Column("Bid", j)
      invariant forall j :: 1 <= j < i ==> header[uptoLevel + j] == Column("Ask", j)
    {
      header := header + [Column(columnName, i)];
    }
  }

  /** printPricePoints, as the cells it writes: walk the set from its best
      price, one level per step, for at most uptoLevel steps, then pad with
      one placeholder per level the set is short of. */
  method PrintPricePoints(o: Ordering, infoSet: seq<OrderInfo>, uptoLevel: nat) returns (cells: seq<Cell>)
    requires Sorted(o, infoSet)
    ensures ShowsLevels(cells, infoSet, uptoLevel)
  {
    var shown := if uptoLevel < |infoSet| then uptoLevel else |infoSet|;
    var i := shown;
    var infoSetIter := 0;
    cells := [];
    while infoSetIter != |infoSet| && i > 0
      invariant infoSetIter <= |infoSet| && 0 <= i && infoSetIter + i == shown
      invariant |cells| == infoSetIter
      invariant forall k :: 0 <= k < infoSetIter ==> cells[k] == Level(infoSet[k].price)
    {
      cells := cells + [Level(infoSet[infoSetIter].price)];
      i := i - 1;
      UpperBoundIsNext(o, infoSet, infoSetIter);
      infoSetIter := UpperBound(o, infoSet, infoSet[infoSetIter]);
    }
    assert |cells| == shown;
    if |infoSet| < uptoLevel {
      var blankEntries := uptoLevel - |infoSet|;
      while blankEntries > 0
        invariant 0 <= blankEntries <= uptoLevel - |infoSet|
        invariant |cells| == uptoLevel - blankEntries
        invariant forall k :: 0 <= k < |infoSet| ==> cells[k] == Level(infoSet[k].price)
        invariant forall k :: |infoSet| <= k < |cells| ==> cells[k] == Blank
      {
        cells := cells + [Blank];
        blankEntries := blankEntries - 1;
      }
    }
  }

  // --------------------------------------------------------------- engine

  class OrderBook {
    var buys: Sides
    var sells: Sides
    var products: set<ProductId>
    var orderIdToProductIdMap: Index

    /** Each buy side descends and each sell side ascends in price, one entry
        per price; every resting entry is indexed to the product whose book
        holds it; every indexed product is registered. */
    ghost predicate Valid()
      reads this
    {
      && (forall p :: p in buys ==> Sorted(Descending, buys[p]) && IndexedTo(buys[p], orderIdToProductIdMap, p))
      && (forall p :: p in sells ==> Sorted(Ascending, sells[p]) && IndexedTo(sells[p], orderIdToProductIdMap, p))
      && orderIdToProductIdMap.Values <= products
    }

    constructor ()
      ensures Valid()
      ensures buys == map[] && sells == map[] && products == {} && orderIdToProductIdMap == map[]
    {
      buys, sells, products, orderIdToProductIdMap := map[], map[], {}, map[];
    }

    /** Whether the order id is indexed. An order that is not indexed rests
        on no side of any product, so its absence is the "unknown order"
        signal. */
    predicate OrderExists(orderId: OrderId): (r: bool)
      reads this
      requires Valid()
      ensures !r ==> forall p :: p in buys ==> !HasOrder(buys[p], orderId)
      ensures !r ==> forall p :: p in sells ==> !HasOrder(sells[p], orderId)
    {
      orderId in orderIdToProductIdMap
    }

    /** A New order: a duplicate order id is refused and nothing changes;
        otherwise the product is registered, the order id indexed to it, and
        the entry emplaced on the buy side if the event says Buy, on the sell
        side otherwise (Unknown included). */
    method NotifyNew(obj: NewOrder) returns (err: ErrorCode)
      requires Valid()
      modifies this
      ensures Valid()
      ensures old(OrderExists(obj.orderId)) ==> err == DuplicateOrderId && unchanged(this)
      ensures !old(OrderExists(obj.orderId)) ==>
                var p, ord := obj.productId, OrderInfo(obj.orderId, obj.quantity, obj.price);
                && err == Ok
                && products == old(products) + {p}
                && orderIdToProductIdMap == old(orderIdToProductIdMap)[obj.orderId := p]
                && (obj.side == Buy ==>
                      buys == old(buys)[p := Insert(Descending, Lookup(old(buys), p), ord)] && sells == old(sells))
                && (obj.side != Buy ==>
                      sells == old(sells)[p := Insert(Ascending, Lookup(old(sells), p), ord)] && buys == old(buys))
    {
      if OrderExists(obj.orderId) {
        return DuplicateOrderId;
      }
      var ord := OrderInfo(obj.orderId, obj.quantity, obj.price);
      var p := obj.productId;
      products := products + {p};
      orderIdToProductIdMap := orderIdToProductIdMap[obj.orderId := p];
      if obj.side == Buy {
        buys := buys[p := Insert(Descending, Lookup(buys, p), ord)];
      } else {
        sells := sells[p := Insert(Ascending, Lookup(sells, p), ord)];
      }
      err := Ok;
    }

    /** An Amend: an order id missing from the index gives InvalidProductId
        and nothing changes; otherwise the side the event names, within the
        indexed product, is amended and the other side, the other products,
        the index and the registry stay as they were. */
    method NotifyAmend(obj: AmendOrder) returns (err: ErrorCode)
      requires Valid()
      modifies this
      ensures Valid()
      ensures !old(OrderExists(obj.orderId)) ==> err == InvalidProductId && unchanged(this)
      ensures old(OrderExists(obj.orderId)) ==>
                var p := old(orderIdToProductIdMap)[obj.orderId];
                && products == old(products)
                && orderIdToProductIdMap == old(orderIdToProductIdMap)
                && (obj.side == Buy ==>
                      var r := PriceBook.Amend(Descending, Lookup(old(buys), p), obj);
                      buys == old(buys)[p := r.0] && sells == old(sells) && err == r.1)
                && (obj.side != Buy ==>
                      var r := PriceBook.Amend(Ascending, Lookup(old(sells), p), obj);
                      sells == old(sells)[p := r.0] && buys == old(buys) && err == r.1)
    {
      if obj.orderId !in orderIdToProductIdMap {
        return InvalidProductId;
      }
      var p := orderIdToProductIdMap[obj.orderId];
      var infoSet: seq<OrderInfo>;
      if obj.side == Buy {
        var r := PriceBook.Amend(Descending, Lookup(buys, p), obj);
        infoSet, err := r.0, r.1;
        AmendStaysIndexed(Descending, Lookup(buys, p), obj, p);
        buys := buys[p := infoSet];
      } else {
        var r := PriceBook.Amend(Ascending, Lookup(sells, p), obj);
        infoSet, err := r.0, r.1;
        AmendStaysIndexed(Ascending, Lookup(sells, p), obj, p);
        sells := sells[p := infoSet];
      }
    }

    /** Amending keeps a side indexed to its product, since the amended entry
        keeps the order id that led to the product. */
    lemma AmendStaysIndexed(o: Ordering, s: seq<OrderInfo>, obj: AmendOrder, p: ProductId)
      requires Sorted(o, s) && IndexedTo(s, orderIdToProductIdMap, p)
      requires obj.orderId in orderIdToProductIdMap && orderIdToProductIdMap[obj.orderId] == p
      ensures IndexedTo(PriceBook.Amend(o, s, obj).0, orderIdToProductIdMap, p)
    {
      if HasOrder(s, obj.orderId) {
        var i := FindOrder(s, obj.orderId);
        EraseSorted(o, s, i);
      }
    }

    /** A Cancel: an order id missing from the index gives InvalidProductId
        and nothing changes; otherwise the entry is erased from the side the
        event names, within the indexed product. The index entry is kept. */
    method NotifyCancel(obj: CancelOrder) returns (err: ErrorCode)
      requires Valid()
      modifies this
      ensures Valid()
      ensures !old(OrderExists(obj.orderId)) ==> err == InvalidProductId && unchanged(this)
      ensures old(OrderExists(obj.orderId)) ==>
                var p := old(orderIdToProductIdMap)[obj.orderId];
                && products == old(products)
                && orderIdToProductIdMap == old(orderIdToProductIdMap)
                && (obj.side == Buy ==>
                      var r := PriceBook.Cancel(Descending, Lookup(old(buys), p), obj);
                      buys == old(buys)[p := r.0] && sells == old(sells) && err == r.1)
                && (obj.side != Buy ==>
                      var r := PriceBook.Cancel(Ascending, Lookup(old(sells), p), obj);
                      sells == old(sells)[p := r.0] && buys == old(buys) && err == r.1)
    {
      if obj.orderId !in orderIdToProductIdMap {
        return InvalidProductId;
      }
      var p := orderIdToProductIdMap[obj.orderId];
      var infoSet: seq<OrderInfo>;
      if obj.side == Buy {
        var r := PriceBook.Cancel(Descending, Lookup(buys, p), obj);
        infoSet, err := r.0, r.1;
        buys := buys[p := infoSet];
      } else {
        var r := PriceBook.Cancel(Ascending, Lookup(sells, p), obj);
        infoSet, err := r.0, r.1;
        sells := sells[p := infoSet];
      }
    }

    /** A Trade: executed against the product's buy side only; its sell side
        is looked up (and so created empty if missing) but not changed, and
        every other product is untouched. Always Ok. */
    method NotifyTrade(obj: Trade) returns (err: ErrorCode)
      requires Valid()
      modifies this
      ensures Valid()
      ensures err == Ok
      ensures products == old(products) && orderIdToProductIdMap == old(orderIdToProductIdMap)
      ensures buys == old(buys)[obj.productId :=
                Executed(Descending, Lookup(old(buys), obj.productId), obj.price, obj.quantity)]
      ensures sells == old(sells)[obj.productId := Lookup(old(sells), obj.productId)]
    {
      var p := obj.productId;
      var buySet := Execute(Descending, Lookup(buys, p), obj);
      ExecutedStaysIndexed(Descending, Lookup(buys, p), obj, orderIdToProductIdMap, p);
      buys := buys[p := buySet];
      sells := sells[p := Lookup(sells, p)];
      err := Ok;
    }

    /** print, as the cells it selects: the header row when asked for, and for
        every registered product the first level bid and ask price points. */
    method Print(level: nat, printHeader: bool) returns (header: seq<string>, rows: map<ProductId, Row>)
      requires Valid()
      ensures printHeader ==> IsHeader(header, level)
      ensures !printHeader ==> header == []
      ensures rows.Keys == products
      ensures forall p :: p in rows ==>
                ShowsLevels(rows[p].bids, Lookup(buys, p), level) && ShowsLevels(rows[p].asks, Lookup(sells, p), level)
    {
      header := [];
      if printHeader {
        header := PrintHeaders(level);
      }
      rows := map[];
      var remaining := products;
      while remaining != {}
        invariant remaining <= products && rows.Keys == products - remaining
        invariant forall p :: p in rows ==>
                    ShowsLevels(rows[p].bids, Lookup(buys, p), level) && ShowsLevels(rows[p].asks, Lookup(sells, p), level)
        decreases remaining
      {
        var product :| product in remaining;
        var bids := PrintPricePoints(Descending, Lookup(buys, product), level);
        var asks := PrintPricePoints(Ascending, Lookup(sells, product), level);
        rows := rows[product := Row(bids, asks)];
        remaining := remaining - {product};
      }
    }
  }

  /** A cancelled order id stays indexed, so it cannot be reused; a second
      New at a price already resting on the side is indexed but leaves the
      side as it was. */
  method ReservedIdSession()
  {
    var book := new OrderBook();
    var err := book.NotifyNew(NewOrder(1, 7, Buy, 10, 100));
    assert err == Ok && book.buys[1] == [OrderInfo(7, 10, 100)];
    err := book.NotifyNew(NewOrder(1, 8, Buy, 5, 100));
    assert err == Ok && book.OrderExists(8);
    assert book.buys[1] == [OrderInfo(7, 10, 100)];
    err := book.NotifyCancel(CancelOrder(7, Buy, 10, 100));
    assert err == Ok && book.buys[1] == [];
    err := book.NotifyNew(NewOrder(2, 7, Sell, 3, 90));
    assert err == DuplicateOrderId;
  }
}
